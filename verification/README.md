# Finalis: verified models

Dafny models of the parts of the Finalis node, wallet and tools whose correctness is hardest to see from
the code, with proofs for all inputs, all runs and all crash points. `dafny verify dfyconfig.toml` checks
the whole project.

**Two-phase finality** (`Blocks`, `Quorum`, `VoteLog`, `VotingNode`, `SafetyRows`, `LoadLaws`, `NodeImpl`,
`Finality`, `VoteGuards`, `VoteEffects`, `Restarts`, `SampleRun`, `RulesNeeded`). Validators vote height after height: prevote,
precommit on a prevote quorum (a polka), finalize on a precommit quorum of floor(2n/3) + 1. `VoteLog` proves
agreement from the voting rules alone. `VotingNode` gives the effect of each code path of one validator:
in-memory locks and prevotes, the durable safety row, writes that succeed, fail, or fail after reaching the
disk, fail-stop, and loading over two copies of every row, quarantine rows and a highwater row, any of them
damaged or gone. `SafetyRows` holds the loops of that load, and `LoadLaws` says what it makes of the copies.
Class `NodeImpl.Node` is the imperative form of these paths, proved equal to them. `Finality` puts any number of
such nodes on an asynchronous network and proves, over every run, that finalized chains never fork, that
finality is durable, and that no correct node ever equivocates, also across restarts. A vote log holds only
correct nodes' votes; a Byzantine member counts as having signed everything. Committees may differ at every
height. `VoteGuards` says exactly when a node votes, from the votes it has cast before. `Restarts` says exactly
which damage a restart survives.

**The persistence fuzzer's oracle** (`FuzzOracle`, `OracleScan`, `OracleReports`, `OracleAgreement`,
`OraclePairs`, `OracleViews`, `OracleRuns`, `WatchedRuns`). The oracle that watches one node is a class whose
observation scans a window of rounds and known blocks. What it reports is determined exactly. If each vote is
observed before its node acts again, every observation passes and correct nodes keep the two guards it does not
check (precommit only on a polka; no vote below a round already voted in), agreement follows, for any committee
and any number of rounds; two votes of one slot in a single observation can break it. On runs of the node model
with an observation after every step, the report of each observation is determined: none, except at a restart
that has given up the open height or cannot read its row back after the oracle has seen a vote there.

**The nodetest traffic client** (`Traffic`, `TrafficRunner`, `WalletFile`, `SavedWallet`). A wallet client that
reserves coins, holds the inputs of sealed timed transactions, saves confidential secrets before it broadcasts,
and recovers after a crash. `Runner.Execute` takes any script of timer ticks, sends, server answers and crashes.
`WalletFile` proves that the saved file parses back, and `SavedWallet` that the file tells the next process all
that the runner relies on.

**Checkpoint committees** (`WideArith`, `Sorting`, `Sequences`, `Committee`, `CommitteeLaws`, `Tickets`,
`Hysteresis`, `Difficulty`, `Checkpoint`, `Derivation`, `DerivationLaws`, `Export`). Fallback hysteresis,
operator aggregation, the cross-multiplied ranking, ticket search, and the difficulty controller, with the
node's and the exporter's fixed-width forms compared to the simulator's unbounded one over whole derivations.
The two `Laws` modules state what a seat, a weight and a rank are on the records alone.

**Codecs, calendar and storage** (`Uleb128`, `ByteCodec`, `WalletRecords`, `RecordLayouts`, `Numerals`,
`Base32`, `Base32Blocks`, `Address`, `Calendar`, `UtcText`, `CoinSelection`, `Merkle`, `KeyOrder`, `LogStore`,
`StatusCache`). Exact inverse laws and byte-for-byte layouts for the binary and text formats (ULEB128 as in
section 7.6 of DWARF Version 5 with minimality; the alphabet of section 6 of RFC 4648 in lower case, unpadded),
optimal coin selection, and two data structures over an ordered key-value store whose writes may fail.

Where code works by updating state, the model is a class or a method with loops, proved against a
specification function; the properties are lemmas about that function.

## Where a natural claim fails

Each of these has a counterexample or an if-and-only-if with the exact condition:

- A restart keeps a validator's votes exactly when each open height with a vote survives: its quarantine row
  if it has one, otherwise a row, readable or not, or the highwater mark (`RestartExactly`). With row and mark
  gone it may vote again (`ForgottenVoteRepeats`). With all rows intact but a lost quarantine row it may vote
  again too, if it has seen a polka at the height it abstained from, since that leaves a readable row without
  votes (`PolkaShadows`, `LostQuarantineRepeats`); while the highwater row is readable this is the only unsafe
  case (`MarkCoversExactly`, `MarkedRunIsRun`).
- The oracle misses a broken lock rule when the prevote and the precommit of one slot come in one observation,
  and then agreement can fail (`ObservePair`, `WatchedNeeded`).
- The oracle reports a correct node at a restart that quarantines the open height after it has seen a vote
  there, and at no other step (`ObservationExactly`, `DamagedRestart`).
- A request index is 32 bits, so it repeats after 2^32 requests of one key (`RequestsNeverReused`,
  `ReuseExactly`).
- Base32 text is not unique: where the padding leaves room, one more letter `a` decodes to the same bytes,
  so every address has a second accepted spelling (`DecodedExact`, `ValidExactly`).
- The node's 64-bit candidate strength can wrap, and a zero selection id reads as unset; the node's order is
  the simulator's exactly where neither happens (`OrdersAgreeExactly`, `WrapParts`, `ZeroIdParts`).
- The node's recovery threshold wraps for a minimum of 2^64 - 2 or more (`DecideMode`, `ModesAgree`).
- The exporter drops operators whose least key is zero, takes a zero key for an unset one, and sums modulo
  2^64 (`SeedKeyExact`, `FormsAgreeExactly`).
- With an eligible and an ineligible availability record for one operator the last one listed wins, so their
  order shows in the committee (`RecordsOnly`, `OrderShowsExactly`, `RelistedCommittee`).
- The wallet's running input total can wrap, and then a coverable payment is refused or gets more inputs
  than it needs (`PlanTransfer`, `SumsCanOvershoot`).
- A Merkle root alone does not fix the number of leaves: any two different lengths clash (`RootBindsExactly`,
  `LengthsClash`).
- An append to the wallet's history that fails part-way leaves records that are still loaded, and a later
  append removes them only when it is long enough (`RepairExactly`, `LoadAfterFailure`).
- Neither the lock rule nor the vote-round floor can be dropped (`LockRuleNeeded`, `FloorRuleNeeded`);
  formal/README.md reports this for four validators and four rounds, and agreement for the same bound. Here
  agreement has no bound.

## Model

| member | source | states |
|---|---|---|
| `Quorum.QuorumsShareCorrectMember` | src/consensus/validator_registry.cpp:242 | with fewer than a third faulty, any two quorums of 2n/3 + 1 share a correct member |
| `VoteLog.NoPolkaAgainstCommit` | formal/README.md:126-163 | once a block has a precommit quorum in some round, no prevote quorum for a sibling exists in that or any later round, at any earlier or later moment |
| `VoteLog.Agreement` | formal/README.md:126-163 | any committee, any number of rounds: two blocks of one height that both gather a precommit quorum are the same block |
| `VoteLog.ChainsAgree` | formal/README.md:126-163 | two finalized chains never fork: the shorter is a prefix of the longer, with a committee that changes from block to block |
| `Finality.PrevoteLegal` | src/node/node_consensus.cpp:847-864 | the lock check a node makes from memory alone keeps the voting rules of the whole cluster log |
| `Finality.PrecommitLegal` | src/node/node_consensus.cpp:699-766 | a precommit that passes the round floor and lock round keeps the voting rules of the whole cluster log |
| `Finality.RestartKeeps` | src/node/node_state.cpp:1289-1425 | loading after a crash, copies, quarantine rows and the highwater row damaged or gone, re-establishes that memory knows every own vote of an open height or abstains from it, as long as each open height with a vote survives: a quarantined one has its quarantine row, an unreadable row, or no row but the mark above it; any other one has a row, readable or not, or the mark above it |
| `Restarts.RestartExactly` | src/node/node_state.cpp:1289-1425 | that condition is exact: over rows that are what was written, the restart keeps the invariant iff every open height with an own vote survives in this sense |
| `Restarts.RunRestartExactly` | src/node/node_state.cpp:1289-1425 | the same in every state of every run, for every set of rows a start may find there |
| `Restarts.ForgottenVoteRepeats` | src/node/node_state.cpp:1289-1425 | where an open height does not survive, the restarted node may prevote any child of its tip there, in any round |
| `Restarts.PolkaShadows` | src/node/node_consensus.cpp:716-744 | a polka seen at a quarantined height leaves a readable row without votes there, because the valid value is written before the abstention is looked up |
| `Restarts.LostQuarantineRepeats` | src/node/node_state.cpp:1399-1425 | with that row and the highwater row intact and only the quarantine row gone, the restarted node may prevote any child of its tip, in any round |
| `Restarts.MarkCoversExactly` | src/node/node_internal.cpp:907-913 | while the highwater row is readable, a restart is safe iff it does not find a readable row, and no quarantine row, at a quarantined open height with an own vote |
| `Restarts.MarkedRunIsRun` | src/node/node_internal.cpp:907-913 | so every run whose starts find the highwater row intact and avoid that one case, any other row unreadable or gone at will, is a run of the step system and has all its guarantees |
| `Finality.StepKeeps` | src/node/node_consensus.cpp:699-766 | every action of a node (proposal, polka, commit certificate, round change, crash, restart, with writes that succeed, fail or fail after reaching disk) keeps the node invariant and the voting rules |
| `Finality.RunKeeps` | src/node/node_consensus.cpp:699-766 | the invariant holds in every state of every run, and the log of votes only grows |
| `Finality.NoFork` | src/node/node_consensus.cpp:335-557 | over every run, the finalized chains of any two correct nodes at any two times lie on one chain |
| `Finality.RunAgreement` | src/node/node_consensus.cpp:699-766 | at any point of any run at most one block per height has ever gathered a precommit quorum |
| `Finality.FinalityIsDurable` | src/node/node_consensus.cpp:335-557 | a finalized block stays in the finalized chain on disk through crashes, failed writes and restarts; memory never runs ahead of disk |
| `Finality.SendableIsDurable` | src/node/node_consensus.cpp:897-971 | whatever a correct node can put on the network, rebroadcast included, was durable first and stays on record until its height closes |
| `Finality.NeverEquivocates` | src/node/node_consensus.cpp:897-971 | over a whole run, restarts included, a correct node sends at most one vote of each kind per height and round |
| `SampleRun.FinalityReachable` | formal/README.md:130 | the step system is not stuck: some run ends with a finalized block |
| `RulesNeeded.CastRulesSuffice` | formal/README.md:142-150 | the lock check against earlier precommits and the vote-round floor, together with the other rules, exclude every fork |
| `RulesNeeded.LockRuleNeeded` | formal/README.md:144-145 | with every rule but the lock rule four validators with one Byzantine can fork |
| `RulesNeeded.FloorRuleNeeded` | formal/README.md:144-150 | with every rule but the vote-round floor four validators with one Byzantine can fork |
| `NodeImpl.Node.constructor` | src/node/node_state.cpp:1289-1425 | a first start over an empty database |
| `NodeImpl.Node.LocalVoteRoundFloor` | src/node/node_consensus.cpp:887-895 | the loop finds the exact bound: a round is at or above it iff no own vote of that height is in a later round |
| `NodeImpl.Node.CanPrevoteLocked` | src/node/node_consensus.cpp:847-864 | allowed iff not abstaining and unlocked, locked on this block, or shown a proof of lock at or after the lock round; the corrupt-state reason exactly on abstained heights |
| `NodeImpl.Node.PersistConsensusSafetyState` | src/node/node_consensus.cpp:1308-1316 | the safety row reaches disk or the node is fail-stopped; success is reported exactly when it is not |
| `NodeImpl.Node.RecordLocalPrevote` | src/node/node_consensus.cpp:994-1000 | a prevote is emitted only when its row is durable; the new state is that of the step the cluster proofs use |
| `NodeImpl.Node.LockOnPolka` | src/node/node_consensus.cpp:874-885 | the lock is published only when durable |
| `NodeImpl.Node.NoteValidValue` | src/node/node_consensus.cpp:699-766 | the valid value moves only to a polka of a higher round, and only once durable |
| `NodeImpl.Node.MayPrecommitNow` | src/node/node_consensus.cpp:699-766 | the chain of checks before a precommit accepts exactly what the cluster proofs assume |
| `NodeImpl.Node.OnPrevotesChanged` | src/node/node_consensus.cpp:699-766 | the imperative handler is the step about which agreement is proved, and which VoteGuards.PolkaExactly describes from the votes cast: same state, same emitted vote, for both writes in any outcome |
| `NodeImpl.Node.PrecommitOnPolka` | src/node/node_consensus.cpp:699-766 | the precommit leaves only once its lock is durable, as in the step of the cluster proofs |
| `NodeImpl.Node.HandleProposeResult` | src/node/node_consensus.cpp:1853-2112 | the proposal handler is the step about which agreement is proved, and which VoteGuards.ProposeExactly describes from the votes cast: same state, same emitted vote |
| `NodeImpl.Node.ForgetHeight` | src/node/node_consensus.cpp:1375-1391 | the erasing loops leave an empty safety row at the height and every other height's row as it was |
| `VotingNode.ForgetClears` | src/node/node_consensus.cpp:1375-1391 | nothing of the height is left, row and abstention of every other height stay, and reservations and timed-out rounds only of later heights |
| `VoteGuards.VotesInTime` | src/node/node_consensus.cpp:2042-2051 | whatever any action of a node casts or sends is a vote of its own in a round it has not timed out of, prevote and precommit alike |
| `VoteGuards.TimedOutIsSilent` | src/node/node.cpp:1665-1680 | over a whole run, until it is started again, a node casts no new vote in a round it has timed out of at a height still open, and the round stays timed out |
| `VoteGuards.ProposeExactly` | src/node/node_consensus.cpp:1853-2112 | from the votes it has cast: a proposal is prevoted iff it is for a child of the tip and no earlier round, the node sits in the committee, has not given the height up nor timed out of the round, has no prevote in it and no vote in a later one, its last precommit is for the block or no newer than the proof of lock, the other checks pass and the row is written |
| `VoteGuards.PolkaExactly` | src/node/node_consensus.cpp:699-766 | from the votes it has cast: a polka is precommitted iff it is for a child of the tip in the current round, the node sits in the committee, has not given the height up, timed out of the round or sent a precommit in it, has no later vote and no other precommit of the round, the other checks pass, and what is new of valid value and lock is written |
| `VoteEffects.VoteLeaves` | src/node/node_consensus.cpp:699-971 | a proposal or a polka adds exactly the vote it sends to those that can be sent again, reserves exactly the slot of a precommit sent, writes no row but that of its height, and moves the highwater mark to that height or not at all |
| `VoteGuards.ValidValuesReal` | src/node/node_consensus.cpp:699-733 | in every state of every run each valid value of a node is a block with a real prevote quorum of its round in the log |
| `VoteGuards.ValidValueRises` | src/node/node_consensus.cpp:699-733 | the valid value of an open height moves only to a polka seen of a higher round, and to every such polka of the next height that is written |
| `VoteGuards.FinalizeMemory` | src/node/node_consensus.cpp:335-557 | a commit of a child of the tip, once durable, is the new tip with round 0, an empty row at its height and every other row as before; otherwise memory stays, and a failed write stops the node |
| `VoteGuards.FinalizeDisk` | src/node/node_consensus.cpp:335-557 | tip, safety row and quarantine row of the height change on disk in one batch, unless the write is lost |
| `VotingNode.ForgetFloor` | src/node/node_consensus.cpp:887-895 | votes at other heights keep their round floor |
| `NodeImpl.Node.ApplyFinalized` | src/node/node_consensus.cpp:335-557 | the tip moves in memory only after the durable write, and success is reported exactly then |
| `NodeImpl.Node.LoadState` | src/node/node_state.cpp:1289-1425 | the load path over any damaged rows is the restart step of the cluster proofs |
| `SafetyRows.ReadRow` | src/node/node_state.cpp:1289-1425 | of two copies the loader believes one readable one, or two that agree |
| `SafetyRows.LoadRows` | src/node/node_state.cpp:1289-1425 | the loop over the rows restores exactly the trusted ones with their votes, sets the doubtful ones aside unless the node cannot have voted there, and moves the highwater mark over every rewritten row |
| `SafetyRows.LostHeights` | src/node/node_state.cpp:1289-1425 | the loop up to the highwater mark finds exactly the heights without any row that the node may have voted at |
| `SafetyRows.LoadDatabase` | src/node/node_state.cpp:1289-1425 | the scans and loops of the loader together give the restart function of the cluster proofs, and the locks, polkas and prevotes of its rows |
| `LoadLaws.RowMeans` | src/node/node_state.cpp:1289-1398 | from the two copies alone: a row is restored iff its height is open, some copy reads as it and no copy reads as another |
| `LoadLaws.QuarantineMeans` | src/node/node_state.cpp:1289-1425 | a height is quarantined iff it is open and has a quarantine row, or the node is no outsider of a larger committee there and its row was found and not restored, or none was found up to the mark and 64 heights past the tip |
| `LoadLaws.MarkMeans` | src/node/node_state.cpp:1289-1425 | the highwater mark never falls, and rises exactly to the greatest height restored from one copy |
| `LoadLaws.DamagedCopy` | src/node/node_state.cpp:1289-1425 | of two equal copies either may become unreadable or go missing: row, votes and quarantine of the height are as before |
| `FuzzOracle.Oracle.constructor` | fuzz/fuzz_consensus_persistence.cpp:584-680 | a fresh oracle remembers nothing |
| `FuzzOracle.Oracle.RecordPol` | fuzz/fuzz_consensus_persistence.cpp:327-330 | keeps the highest accepted proof-of-lock round per height, round and block |
| `FuzzOracle.Oracle.MarkPrecommit` | fuzz/fuzz_consensus_persistence.cpp:562-574 | reports a second precommit for another block of the same slot, and only that |
| `FuzzOracle.Oracle.LatestPrecommit` | fuzz/fuzz_consensus_persistence.cpp:584-680 | the scan finds the own precommit of the greatest round at or below the given one |
| `FuzzOracle.Oracle.SeePrevote` | fuzz/fuzz_consensus_persistence.cpp:584-680 | reports a double prevote, or a prevote against the latest own precommit without a proof of lock from that round on |
| `FuzzOracle.Oracle.ObserveRounds` | fuzz/fuzz_consensus_persistence.cpp:639-680 | the nested loops over rounds and blocks are the scan of OracleScan.ObserveScan |
| `FuzzOracle.Oracle.CheckDurable` | fuzz/fuzz_consensus_persistence.cpp:620-638 | the two loops report a remembered precommit of the open height that the lock does not cover, else a remembered prevote that is not on record, else nothing |
| `FuzzOracle.Oracle.Observe` | fuzz/fuzz_consensus_persistence.cpp:584-680 | one observation with all remembered maps; it is the observation that OracleReports.ReportExactly and the agreement and run theorems below are about |
| `OracleReports.ReportExactly` | fuzz/fuzz_consensus_persistence.cpp:584-680 | from the memory and the view alone: a signature after the fail-stop is reported iff there is one; else a rollback iff the height fell or a height above 0 shows another block than remembered; else, at a restart, a precommit of the open height not covered by the lock or by the row, then a prevote not on record; else only vote rules |
| `OracleReports.HeightsNeverFall` | fuzz/fuzz_consensus_persistence.cpp:598-614 | over a trace whose observations all pass, the heights reported of a node never fall and each height keeps one block |
| `OracleReports.WindowFollows` | fuzz/fuzz_consensus_persistence.cpp:639-680 | a passing observation looks at every round up to six past the greatest known, and then knows every prevote it met |
| `OracleScan.ObserveScan` | fuzz/fuzz_consensus_persistence.cpp:584-680 | an observation in which at most one vote is news passes iff the fail-stop, finality and durability checks pass and, when that vote is in the scanned window, the vote rules accept it; the oracle then remembers exactly it besides |
| `OracleAgreement.EveryCastChecked` | fuzz/fuzz_consensus_persistence.cpp:584-680 | when each vote is observed before its node acts again and all observations pass, every vote passes the vote rules as of the moment it was cast |
| `OracleAgreement.PassingKeepsRules` | fuzz/fuzz_consensus_persistence.cpp:562-680 | if moreover every correct node keeps the two guards the oracle does not check, the voting rules hold of the whole log at every point of the trace |
| `OracleAgreement.OracleImpliesAgreement` | fuzz/fuzz_consensus_persistence.cpp:562-680 | every committee with under a third Byzantine, every number of rounds, every trace of casts, accepted proposals and observations that pass: no two blocks of one height both gather a precommit quorum |
| `OraclePairs.ObservePair` | fuzz/fuzz_consensus_persistence.cpp:639-680 | an observation in which prevote and precommit of one slot are both news passes iff the checks before the scan pass and neither slot holds another block, whatever the lock rule says of the prevote |
| `OraclePairs.WatchedNeeded` | fuzz/fuzz_consensus_persistence.cpp:639-680 | so observing each vote before the next cannot be dropped: a trace that keeps all guards and passes every observation in which one correct validator commits two siblings |
| `OracleViews.LatestIsLock` | src/node/node_consensus.cpp:874-885 | the latest precommit in the oracle memory is the lock the node holds |
| `OracleViews.PrevotePasses` | src/node/node_consensus.cpp:847-864 | a prevote the node allows is one the oracle accepts |
| `OracleViews.StepGood` | src/node/node_consensus.cpp:699-766 | every vote a step casts keeps both guards and is one the oracle accepts |
| `WatchedRuns.ObservationExactly` | fuzz/fuzz_consensus_persistence.cpp:584-680 | in every run with an observation after each step, the first report is exactly that of a restart that cannot read back, or has given up, the open height at which the oracle has seen a vote: precommit-durable if it saw a precommit, else prevote-durable; every other observation passes |
| `WatchedRuns.RunPasses` | fuzz/fuzz_consensus_persistence.cpp:584-680 | a run passes all its observations iff every restart reads back the votes seen at the open height |
| `WatchedRuns.DamagedRestart` | src/node/node_state.cpp:1289-1425 | from every state in which the oracle has seen a precommit of the open height, a restart that the node survives by abstaining and the oracle reports is possible |
| `Traffic.RequestsNeverReused` | apps/finalis-nodetest/main.cpp:337-365 | two sent confidential outputs with the same key and request index are one output, as long as that key has issued no more than 2^32 requests |
| `Traffic.ReuseExactly` | apps/finalis-nodetest/main.cpp:337-365 | the bound is exact: some state of the wallet with n requests counted has two different sent outputs with one key and request index iff n exceeds 2^32 |
| `Traffic.FreshId` | apps/finalis-nodetest/main.cpp:671-729 | a transaction over free inputs never has the id of an open one |
| `TrafficRunner.Runner.constructor` | apps/finalis-nodetest/main.cpp:201-228 | an empty wallet, on disk as in memory |
| `TrafficRunner.Runner.CrashAndLoad` | apps/finalis-nodetest/main.cpp:168-188 | after a crash the wallet is what was last saved, and what parsing the saved text gives, the tip is what the server says and nothing is in flight; every safety clause survives |
| `TrafficRunner.DropHolds` | apps/finalis-nodetest/main.cpp:201-228 | exactly the holds whose release height has passed go, and their coins come free |
| `TrafficRunner.Runner.RefreshCoins` | apps/finalis-nodetest/main.cpp:201-228 | holds are released exactly at their height; then the cache is exactly what the listings allow: every coin in it is listed, spendable and free, every free listed coin is in it unless withheld, and it is empty when a listing failed |
| `TrafficRunner.Runner.TakeCoin` | apps/finalis-nodetest/main.cpp:319-330 | one coin of at least the asked size leaves the cache and nothing else changes; none exactly when no coin fits |
| `TrafficRunner.Runner.PutBack` | apps/finalis-nodetest/main.cpp:332-334 | returned coins join the cache, which stays free of duplicates and of reserved coins |
| `TrafficRunner.Runner.ConfPayment` | apps/finalis-nodetest/main.cpp:337-365 | uses up exactly one request of the key, also when the output cannot be built |
| `TrafficRunner.Runner.BuildPlain` | apps/finalis-nodetest/main.cpp:383-519 | it builds iff the signature succeeds and a coin is large enough; then on exactly one such coin, which is what leaves the cache, to be given up 20 blocks on; a failed build leaves the cache as it was |
| `TrafficRunner.Runner.BuildShield` | apps/finalis-nodetest/main.cpp:383-519 | one free coin, less the fee, into one confidential output under the next request of the key, never used before; the coin is what leaves the cache, and a failed build gives it back |
| `TrafficRunner.Runner.UsableConf` | apps/finalis-nodetest/main.cpp:237-244 | exactly the confidential coins that are final, unspent, unmarked and large enough |
| `TrafficRunner.Runner.SplitPayments` | apps/finalis-nodetest/main.cpp:383-519 | one fresh payment, or two halves from 0.48 coins on; the amounts add up to the total |
| `TrafficRunner.Runner.BuildConf` | apps/finalis-nodetest/main.cpp:383-519 | spends one usable confidential coin above the fee and two dust limits; kept confidential, outputs and fee add up to it, in one or two outputs; otherwise it creates none |
| `TrafficRunner.Runner.BuildTimed` | apps/finalis-nodetest/main.cpp:521-636 | it builds iff the plan succeeds and the fee coin is plain; the fee coin and the eligible coins chosen for the sealed body, and nothing else, leave the cache; the release height is kept, and it is given up at the earlier of the last inclusion height and 20 blocks on; a failed build changes nothing |
| `TrafficRunner.Runner.SaveRecords` | apps/finalis-nodetest/main.cpp:671-729 | the secrets of all outputs and the mark on the spent coin are on disk before the broadcast |
| `TrafficRunner.Runner.Undo` | apps/finalis-nodetest/main.cpp:732-747 | after a refusal created records are gone, the spent coin is released, the inputs return unless they are gone, and disk follows |
| `TrafficRunner.Runner.Track` | apps/finalis-nodetest/main.cpp:671-729 | a sent transaction and its holds reserve exactly its inputs |
| `TrafficRunner.Runner.Launch` | apps/finalis-nodetest/main.cpp:671-729 | nothing leaves before the save, at whichever point the process dies |
| `TrafficRunner.Runner.Send` | apps/finalis-nodetest/main.cpp:671-747 | once sent or in doubt the transaction is tracked under its id with its inputs, records and expiry, its inputs and body coins are reserved and the body coins held until the release; a plain refusal restores wallet, cache and reservations exactly; a refusal over spent inputs marks them spent; only saved outputs ever leave |
| `TrafficRunner.Runner.Close` | apps/finalis-nodetest/main.cpp:750-794 | a closed transaction frees exactly its inputs and settles exactly its records |
| `TrafficRunner.Runner.PollInflight` | apps/finalis-nodetest/main.cpp:750-794 | of the first hundred polled exactly the final and expired ones close; records and reservations depend on which ones closed, not on the order, and changed records are on disk |
| `TrafficRunner.ResumeAll` | apps/finalis-nodetest/main.cpp:253-304 | every record still being spent after a restart gets an open transaction again, which expires 20 blocks after the tip |
| `TrafficRunner.Runner.RecheckConf` | apps/finalis-nodetest/main.cpp:253-304 | after a restart each record has, field by field, what the server answers and the proofs of absence make of it, and every open spend is tracked, so its coin is not spent twice |
| `TrafficRunner.Runner.DeliverTimed` | apps/finalis-nodetest/main.cpp:521-729 | a timed send that is not refused takes the fee coin and every body coin out of the cache, reserves them and holds the body coins until the release height |
| `TrafficRunner.Runner.ReleaseHolds` | apps/finalis-nodetest/main.cpp:201-228 | exactly the holds whose height has come are dropped, and exactly their coins come free |
| `TrafficRunner.Runner.Handle` | apps/finalis-nodetest/main.cpp:671-794 | every event, with any answer of the server and a crash at any point, keeps the whole invariant; unless the process ends, the tip is the one announced and every body not yet released stays held |
| `TrafficRunner.Runner.Execute` | apps/finalis-nodetest/main.cpp:201-794 | over every script of events: inputs and confidential spends of open transactions are disjoint from each other and from holds, the cache is disjoint from reserved coins, spent coins carry the id of their spender, no (key, index) pair is sent twice before the counter wraps, and the secrets of every sent, not refused output are on disk; while the process lives and the tip stays below its release, no coin of a sealed body is offered again |
| `WalletFile.HexReadsBack` | src/common/types.cpp:10-47 | hex text of any bytes decodes to them |
| `WalletFile.HexMeans` | src/common/types.cpp:10-20 | two letters a byte, the high half first |
| `WalletFile.ConfLineText` | apps/finalis-nodetest/nodetest_core.cpp:463-468 | the line of a record, field after field |
| `WalletFile.PointReads` | apps/finalis-nodetest/nodetest_core.cpp:38-68 | an outpoint reads back from its text |
| `WalletFile.ConfReads` | apps/finalis-nodetest/nodetest_core.cpp:472-536 | a confidential record reads back from its fields, whatever follows |
| `WalletFile.SerializeWallet` | apps/finalis-nodetest/nodetest_core.cpp:458-470 | the text the writing loops produce parses back to the wallet, for every wallet with fields of their widths |
| `WalletFile.ParseWallet` | apps/finalis-nodetest/nodetest_core.cpp:472-536 | the token loop is the parser the round trip is about, error outcomes included |
| `WalletFile.FileReadsBack` | apps/finalis-nodetest/nodetest_core.cpp:458-536 | the saved file parses back to exactly the wallet it was written from |
| `SavedWallet.SavedReadsBack` | apps/finalis-nodetest/main.cpp:161-165 | saving the runner's wallet and loading it gives back its counters and records |
| `SavedWallet.ReadsAsItself` | apps/finalis-nodetest/main.cpp:161-165 | the same for every assignment of bytes to ids and secrets at once, as the load after a crash uses it |
| `SavedWallet.FileTellsExactly` | apps/finalis-nodetest/nodetest_core.cpp:458-536 | two wallets of the runner have the same file iff they have the same records and the same counters modulo 2^32, so the file is the disk that the safety clauses of Execute speak of |
| `WideArith.MulU64` | src/common/wide_arith.hpp:25-38 | the 128-bit result is the exact product and no intermediate word wraps |
| `WideArith.Cmp` | src/common/wide_arith.hpp:46-50 | the sign of the comparison of the two numbers |
| `WideArith.CompareMulU64` | src/common/wide_arith.hpp:71-73 | the sign of a*b - c*d for all 64-bit words |
| `WideArith.DivU64` | src/common/wide_arith.hpp:56-69 | the bit-by-bit division gives the low word of the exact quotient |
| `WideArith.IntegerSqrt` | src/consensus/monetary.cpp:156-168 | the binary search gives the floor of the square root and nothing overflows |
| `WideArith.RootUnique` | src/consensus/monetary.cpp:156-168 | there is only one such root |
| `Committee.CompareAntisymmetric` | scripts/protocol_attack_sim.py:595-626 | swapping the candidates flips the sign; zero exactly on equal candidates |
| `Committee.CompareTransitive` | scripts/protocol_attack_sim.py:595-626 | transitive across the cross products and the whole tie-break chain |
| `Committee.RankIsTotal` | scripts/protocol_attack_sim.py:595-630 | the ranking is a total order whatever the hash |
| `Committee.SelectIgnoresOrder` | scripts/protocol_attack_sim.py:629-635 | ranking and committee do not depend on the order of the candidates |
| `Committee.CommitteeIsLeast` | scripts/protocol_attack_sim.py:633-635 | every member ranks strictly before every candidate left out |
| `Committee.StrengthBounds` | scripts/protocol_attack_sim.py:586-592 | strength lies between 10000 w and (10000 + cap/2) w |
| `Committee.WeightLeadWins` | scripts/protocol_attack_sim.py:586-626 | with a no larger hash prefix and a nonzero rival prefix, a weight lead of the capped bonus outranks any ticket |
| `Committee.CandidateStrength` | src/consensus/finalized_committee.cpp:43-51 | the 64-bit strength is the one that CommitteeLaws.NodeStrengthMeans describes: the exact product modulo 2^64, and at least 1 |
| `CommitteeLaws.WeightMeans` | scripts/protocol_attack_sim.py:586-592 | a set weight stands, otherwise it is the floor root of the bond, and 1 for no bond |
| `CommitteeLaws.StrengthMeans` | scripts/protocol_attack_sim.py:586-592 | strength is weight times 10000 + q, where q is the greatest number with q times 1 + s within the bounded bonus, s the floor root of the coins bonded, counted as at least 1 |
| `CommitteeLaws.NodeStrengthMeans` | src/consensus/finalized_committee.cpp:43-51 | the node strength differs from the exact one by a multiple of 2^64, or is 1 where nothing is left |
| `CommitteeLaws.BonusLeadWins` | scripts/protocol_attack_sim.py:586-626 | of two candidates alike in weight and bond, with equal nonzero prefixes, one whose bounded bonus leads by 1 + s ranks first |
| `CommitteeLaws.RanksFirst` | scripts/protocol_attack_sim.py:595-626 | the whole order: the smaller ratio of prefix to strength first, then the first that differs of hash, id, key, weight, capped bond, bond, bonus, work hash, nonce, cap and raw id, the middle four descending |
| `CommitteeLaws.PrefixIsFirstBytes` | src/consensus/finalized_committee.cpp:20-26 | the prefix is the number spelled by the first eight of the 32 hash bytes |
| `Committee.WrapsExactly` | src/consensus/finalized_committee.cpp:43-51 | the wrapped strength is the exact one iff that fits 64 bits |
| `Committee.RootWeightsFit` | src/consensus/monetary.cpp:156-170 | weights that are roots of 64-bit bonds never wrap under a cap below 2^31 basis points |
| `Committee.RanksBefore` | src/consensus/finalized_committee.cpp:56-82 | the node comparator decides its whole chain on wrapped strengths, by 128-bit cross products, a zero selection id read as the public key |
| `Committee.OrdersAgree` | src/consensus/finalized_committee.cpp:56-82 | a candidate whose strength fits and whose selection id is not zero is compared by the node as by the simulator with every rival of that kind |
| `Committee.OrdersAgreeExactly` | src/consensus/finalized_committee.cpp:56-82 | and only such a candidate: the two orders agree on it under every hash and against every rival that fits and is not the same candidate with its id spelled differently, iff its strength fits 64 bits and its selection id is not zero |
| `Committee.WrapParts` | src/consensus/finalized_committee.cpp:43-82 | for every candidate whose strength does not fit there are a weak rival and a hash with the simulator ranking it before and the node behind |
| `Committee.ZeroIdParts` | src/consensus/finalized_committee.cpp:56-82 | the same for every candidate with a zero selection id, which the node reads as unset |
| `Tickets.LeadingZeroBits` | scripts/protocol_attack_sim.py:428-439 | the byte and bit loops count the zeros above the bit length of the hash as a number |
| `Tickets.ZerosAntitone` | scripts/protocol_attack_sim.py:428-439 | a larger hash never has more leading zeros |
| `Tickets.BonusMonotone` | scripts/protocol_attack_sim.py:442-447 | more zeros never earn a smaller bonus |
| `Tickets.BonusSteps` | scripts/protocol_attack_sim.py:442-447 | nothing below the difficulty; 500 + 400k within the cap is reached iff there are at least k * k - 1 zero bits beyond it; the value between two steps is that of the lower one, and never above the cap |
| `Tickets.BestTicket` | scripts/protocol_attack_sim.py:450-470 | the search returns the earliest least hash of all nonces tried, and its bonus is the largest of all of them |
| `Hysteresis.DecideMode` | tools/checkpoint_fixture_export.cpp:152-161 | the 64-bit decision equals the simulator decision except exactly when, in fallback, a minimum of 2^64 - 2 or more is met |
| `Hysteresis.ModesAgree` | tools/checkpoint_fixture_export.cpp:147-161 | mode and reason are those of the simulator iff the recovery threshold does not wrap into an early recovery |
| `Hysteresis.FallbackExactly` | scripts/protocol_attack_sim.py:524-546 | after any run the mode is fallback iff it was entered and no epoch since the last below-minimum one reached the recovery threshold |
| `Hysteresis.RunEpochs` | scripts/protocol_attack_sim.py:809-811 | every epoch of the loop reports the mode and the reason that the history of counts determines, the sticky one included |
| `Difficulty.Adjust` | scripts/sybil_model.py:116-151 | the controller is the step the run properties are about |
| `Difficulty.OneStepInRange` | scripts/sybil_model.py:116-151 | one adjustment from any state is in 8..12, and moves by at most one from an in-range state |
| `Difficulty.RunPays` | scripts/sybil_model.py:501-517 | over any metrics: in range, at most one bit per epoch, streaks never both positive, rises at most half the healthy and falls at most a third of the unhealthy epochs |
| `Difficulty.SteadyRuns` | scripts/sybil_model.py:501-517 | a run of well epochs raises the difficulty by one every second epoch up to 12, one of ill epochs lowers it by one every third down to 8, one of neither leaves it, with the thresholds 1.25 and 95%, 2.5 and 85% written out |
| `Difficulty.Simulate` | scripts/sybil_model.py:501-517 | the epoch loop reports exactly that path |
| `Checkpoint.GroupOperators` | scripts/protocol_attack_sim.py:2473-2546 | the dictionary holds, per operator, its kept validators in order |
| `Checkpoint.LeastKeyIsLeast` | scripts/protocol_attack_sim.py:2473-2546 | the representative is a least key of the group |
| `Checkpoint.StreamOperators` | tools/checkpoint_fixture_export.cpp:164-180 | the streaming loop ends with one seed per operator, the running minimum and 64-bit sum of its kept validators |
| `Checkpoint.SeedTotal` | tools/checkpoint_fixture_export.cpp:164-180 | the running sum is the bond modulo 2^64 |
| `Checkpoint.SeedKeyExact` | tools/checkpoint_fixture_export.cpp:164-180 | the running minimum is the least key iff no zero key comes before another key |
| `Checkpoint.FormsAgree` | tools/checkpoint_fixture_export.cpp:164-180 | per operator: streaming and grouping give the same representative and bond iff no zero key comes early and the bond fits 64 bits |
| `Export.DeriveInputs` | tools/checkpoint_fixture_export.cpp:147-190 | the exporter's decision, filter, streaming loop and drop of unset keys give mode, reason and operators as one function of the inputs |
| `Export.BondsAgree` | tools/checkpoint_fixture_export.cpp:164-190 | its operators are the simulator's iff no kept validator has the zero key and every bond fits 64 bits |
| `Export.FormsAgreeExactly` | tools/checkpoint_fixture_export.cpp:147-190 | for all validators, availability records, previous modes and parameters the exporter derives what the simulator derives iff the recovery threshold does not wrap, no kept validator has the zero key and every bond fits 64 bits |
| `Checkpoint.AscendingZero` | tools/checkpoint_fixture_export.cpp:164-180 | for validators in key order the condition is that a zero key stands alone |
| `Derivation.KeepValidators` | scripts/protocol_attack_sim.py:2473-2546 | the filter loop keeps exactly the validators the mode admits |
| `Sorting.SortKeys` | scripts/protocol_attack_sim.py:2473-2546 | the operators in ascending order, each once |
| `Derivation.BuildCandidate` | scripts/protocol_attack_sim.py:2473-2546 | the loops over one group give its representative, bond, weight and best ticket; the capped bond is the bond or the cap, whichever is less |
| `Derivation.BuildCandidates` | scripts/protocol_attack_sim.py:2473-2546 | one candidate per operator, in operator order, each with the best ticket of its own search |
| `Derivation.DeriveCheckpoint` | scripts/protocol_attack_sim.py:2473-2546 | the imperative derivation, ticket searches included, is the function the committee properties are about |
| `Derivation.CommitteeShape` | scripts/protocol_attack_sim.py:2473-2546 | min(K, operators) members, one per operator, each built from its own records, and only eligible operators in normal mode |
| `DerivationLaws.SeatMeans` | scripts/protocol_attack_sim.py:2490-2535 | of every seat, on the records alone: its bond is the sum over the validators of its operator that take part, its capped bond the lesser of that and the cap, its weight the floor root of that and at least 1, its key the least of those validators, its ticket that of the operator |
| `DerivationLaws.SeatCount` | scripts/protocol_attack_sim.py:2490-2537 | as many seats as operators with a validator that takes part, up to the committee size: active, bonded, of the minimum bond unless from genesis, and in normal mode with an available last record |
| `DerivationLaws.CapEqualsWeights` | scripts/protocol_attack_sim.py:2508-2526 | two seated operators whose bonds both reach the cap weigh the same, whatever they bonded |
| `DerivationLaws.TicketMeans` | scripts/protocol_attack_sim.py:2510-2534 | the ticket of an operator is the first of its least hashes among the nonces tried, with the bonus its zero bits earn |
| `DerivationLaws.CountMeans` | scripts/protocol_attack_sim.py:2442-2449 | the eligible count is the number of records that are active, of the minimum bond, and whose score and root of the retained prefix reach the minimum |
| `Derivation.RecordsOnly` | scripts/protocol_attack_sim.py:2473-2546 | the result depends only on which records there are, not on their order, in fallback mode always and in normal mode unless an operator with a base-eligible validator has both an eligible and an ineligible availability record |
| `Derivation.OrderShowsExactly` | scripts/protocol_attack_sim.py:2442-2546 | that condition is exact for the whole derivation: for given records some reordering of the availability records and some hash change the result iff the committee is not empty by size, the mode is normal and such an operator exists |
| `Derivation.RelistedCommittee` | scripts/protocol_attack_sim.py:2442-2546 | a concrete pair of lists: the same two availability records in either order, and two committees |
| `Uleb128.EncodeUleb128` | src/codec/varint.cpp:7-16 | the loop emits the seven-bit groups of the value |
| `Uleb128.DecodeRaw` | src/codec/varint.cpp:26-46 | the byte loop reads a value iff a terminated code of at most ten bytes that fits 64 bits starts there, and no shift loses bits |
| `Uleb128.DecodeUleb128` | src/codec/varint.cpp:26-46 | the same with minimality: the bytes read must be the encoding of the value |
| `Uleb128.ReadExact` | src/codec/varint.cpp:7-46 | reading gives v and a rest iff v is a 64-bit value and the bytes are its encoding followed by that rest; at most ten bytes |
| `Uleb128.EncodeTerminated` | src/codec/varint.cpp:7-16 | the encoding of v is terminated and has value v |
| `Uleb128.PrefixFree` | src/codec/varint.cpp:7-46 | no terminated code is a proper prefix of another |
| `Uleb128.EncodeInjective` | src/codec/varint.cpp:7-46 | encodings followed by anything determine value and rest |
| `Uleb128.IsMinimalEncoding` | src/codec/varint.cpp:18-24 | true exactly on the image of the encoder |
| `ByteCodec.TakeLEExact` | src/codec/bytes.cpp:43-65 | an n-byte little-endian read gives v iff v fits and the bytes are those of v |
| `RecordLayouts.NumberBytes` | src/codec/bytes.cpp:5-30 | byte i of a number holds its bits 8i to 8i + 7 |
| `RecordLayouts.LengthBytes` | src/codec/varint.cpp:7-16 | byte i of a length holds its bits 7i to 7i + 6, the top bit is set on all but the last byte, and no byte is wasted |
| `ByteCodec.TakeVarbytesExact` | src/codec/bytes.cpp:85-89 | a length-prefixed read gives b iff the bytes start with the encoding of b |
| `ByteCodec.AllReadBack` | apps/finalis-wallet/wallet_store.cpp:193-250 | a counted list of self-delimiting items reads back |
| `ByteCodec.AllCanonical` | apps/finalis-wallet/wallet_store.cpp:193-250 | whatever list is read is the list whose encoding was there |
| `ByteCodec.ByteWriter.PutLE` | src/codec/bytes.cpp:13-24 | appends exactly the little-endian bytes |
| `ByteCodec.ByteWriter.PutVarint` | src/codec/bytes.cpp:28-31 | appends exactly the minimal encoding |
| `ByteCodec.ByteWriter.PutVarbytes` | src/codec/bytes.cpp:33-36 | appends length and bytes |
| `ByteCodec.ByteReader.GetLE` | src/codec/bytes.cpp:43-65 | reads and advances as the exact reader says; on failure the position stays |
| `ByteCodec.ByteReader.GetBytes` | src/codec/bytes.cpp:67-73 | reads exactly n bytes or leaves the position |
| `ByteCodec.ByteReader.GetVarint` | src/codec/bytes.cpp:75-83 | reads a minimal varint or leaves the position |
| `ByteCodec.ByteReader.GetVarbytes` | src/codec/bytes.cpp:85-89 | reads a length-prefixed string exactly when one is there |
| `WalletRecords.SerializeHistory` | apps/finalis-wallet/wallet_store.cpp:252-259 | the writer emits the record format |
| `WalletRecords.DecodeHistory` | apps/finalis-wallet/wallet_store.cpp:261-278 | the reader, which reads every field before it checks any, is the parser of the bijection |
| `WalletRecords.HistoryExact` | apps/finalis-wallet/wallet_store.cpp:252-278 | history records: parsing gives r iff r is in range and the bytes are its encoding |
| `RecordLayouts.HistoryLayout` | apps/finalis-wallet/wallet_store.cpp:252-259 | where each field sits: height in eight bytes, then id, kind and detail behind their lengths, and nothing else |
| `WalletRecords.SerializeTimed` | apps/finalis-wallet/wallet_store.cpp:193-211 | the writer emits the record format |
| `WalletRecords.DecodeTimed` | apps/finalis-wallet/wallet_store.cpp:213-250 | the reader with its count guard is the parser of the bijection |
| `WalletRecords.TimedExact` | apps/finalis-wallet/wallet_store.cpp:193-250 | timed sends: parsing gives r iff r is in range and the bytes are its encoding, so the count guard rejects no real record |
| `RecordLayouts.CoinLayout` | apps/finalis-wallet/wallet_store.cpp:193-211 | where each field of a coin sits: 32 bytes of id, four of index, eight of value, then the script behind its length |
| `RecordLayouts.TimedLayout` | apps/finalis-wallet/wallet_store.cpp:193-211 | where each field sits: body; unlock, bond and amount in eight bytes each; recipient; fee coin as 32 bytes of id, four of index, eight of value and script; the number of inputs and each input; cancel id |
| `WalletRecords.SerializePending` | apps/finalis-wallet/wallet_store.cpp:156-166 | the writer emits the current form |
| `WalletRecords.DecodePending` | apps/finalis-wallet/wallet_store.cpp:168-191 | the reader is the parser of the next row |
| `WalletRecords.PendingExact` | apps/finalis-wallet/wallet_store.cpp:156-191 | pending spends: accepted bytes are exactly the current form, or the older form without the 16-byte tail, which reads as zeros |
| `RecordLayouts.PendingLayout` | apps/finalis-wallet/wallet_store.cpp:156-166 | where each field sits: count in four bytes, 36 bytes an input, tip height and time in eight bytes each |
| `Base32.PushGroup` | src/common/address.cpp:20-36 | taking five bits off the wrapping buffer keeps it in step with the unbounded bit string |
| `Base32.PullGroup` | src/common/address.cpp:20-60 | shifting bits into the wrapping 32-bit buffer keeps it in step with the unbounded bit string |
| `Base32.Base32Encode` | src/common/address.cpp:20-36 | the loop with the wrapping buffer gives the letters of the zero-padded big-endian number |
| `Base32.Base32Decode` | src/common/address.cpp:38-60 | the loop with the wrapping buffer gives the bytes of the number, or nothing on a bad letter or nonzero spare bits |
| `Base32.DecodesBack` | src/common/address.cpp:20-60 | decoding undoes encoding for every byte string |
| `Base32.DecodesPlusA` | src/common/address.cpp:38-60 | one more letter a is accepted where the padding leaves room |
| `Base32.DecodedExact` | src/common/address.cpp:20-60 | a text decodes to the data iff it is the encoding, or the encoding and one a where there is room |
| `Base32Blocks.FiveBytes` | src/common/address.cpp:20-36 | five bytes make eight letters, the five-bit groups from the top bit down, and the rest is encoded as it would be alone: section 6 of RFC 4648 |
| `Base32Blocks.BlockAt` | src/common/address.cpp:20-36 | the k-th eight letters are those of the k-th five bytes |
| `Base32Blocks.TextMeans` | src/common/address.cpp:12-18 | the letters are a to z, then 2 to 7 |
| `Address.EncodeP2pkh` | src/common/address.cpp:72-82 | an address exactly for the two known prefixes |
| `Address.Validate` | src/common/address.cpp:84-132 | every outcome of the check chain, in order, with the first failing reason |
| `Address.ValidExactly` | src/common/address.cpp:72-132 | accepted with prefix and hash iff the text is the canonical address, or that text and one a |
| `Address.CanonicalLetters` | src/common/address.cpp:72-82 | an address is prefix, 1 and forty letters, eight for each five bytes of version 0, hash and checksum |
| `Address.RefusedFor` | src/common/address.cpp:84-132 | refused for a missing separator iff there is no 1, for the prefix iff it starts with neither sc1 nor tsc1, for a missing payload iff it is one of these |
| `Address.NormalForm` | src/common/address.cpp:84-132 | whatever is accepted has a canonical normal form that is accepted as itself with the same contents |
| `Calendar.LeapRule` | apps/finalis-nodetest/nodetest_core.cpp:293 | on truncating remainders of any year the code decides the Gregorian rule |
| `Calendar.ClosedForm` | apps/finalis-nodetest/nodetest_core.cpp:284-291 | the era arithmetic is a closed day count, for years before zero too |
| `Calendar.DayCount` | apps/finalis-nodetest/nodetest_core.cpp:284-291 | the next date has the next number and 1970-01-01 is 0: the proleptic Gregorian count |
| `Calendar.DateOfDays` | apps/finalis-nodetest/nodetest_core.cpp:319-340 | every day number is the number of its date, which is valid |
| `Calendar.CivilOfDate` | apps/finalis-nodetest/nodetest_core.cpp:284-340 | every valid date is the date of its day number |
| `UtcText.ReadNumber` | apps/finalis-nodetest/nodetest_core.cpp:297-317 | the digit loop reads a number iff every character is a digit |
| `UtcText.ParseUtcTime` | apps/finalis-nodetest/nodetest_core.cpp:297-317 | the parser, with its field and range checks, is the one of the next row |
| `UtcText.ParseExact` | apps/finalis-nodetest/nodetest_core.cpp:297-340 | text parses to t iff t lies in the years 2000 to 9999 and the text is the printed form of t: a subset of section 5.6 of RFC 3339 |
| `UtcText.ClockTicks` | apps/finalis-nodetest/nodetest_core.cpp:284-330 | the seconds count: 1970 begins at 0, the moment a second later has one more, and one more prints as that moment |
| `UtcText.TextLayout` | apps/finalis-nodetest/nodetest_core.cpp:325-340 | the printed text is year, month, day, hour, minute and second in decimal, two digits a field and four for the year, most significant first |
| `CoinSelection.Collect` | apps/finalis-wallet/confidential_send.cpp:86-118 | the candidates are the unspent, unreserved records |
| `CoinSelection.CandidatesMean` | apps/finalis-wallet/confidential_send.cpp:86-118 | a coin is on offer once for each record of it that is unspent and readable, unless reserved |
| `CoinSelection.LargestCover` | apps/finalis-wallet/confidential_send.cpp:86-118 | any k coins are worth at most the k largest |
| `CoinSelection.TakenIsOptimal` | apps/finalis-wallet/confidential_send.cpp:86-118 | the greedy prefix covers iff some choice of at most 16 coins covers, and then no covering choice is smaller and the change is below every chosen coin |
| `CoinSelection.Choose` | apps/finalis-wallet/confidential_send.cpp:86-118 | sorting and the selection loop with its 64-bit total find an optimal choice iff one exists, unless the total overshoots 64 bits, when they never find an optimal one |
| `CoinSelection.SumsCanOvershoot` | apps/finalis-wallet/confidential_send.cpp:105-109 | two coins of 2^63 units overshoot |
| `CoinSelection.PlanTransfer` | apps/finalis-wallet/confidential_send.cpp:78-118 | refusal of a zero amount and of an overflowing sum exactly in those cases; otherwise it plans iff some choice covers, with an optimal choice of the first coins by amount descending, id and index, and inputs = amount + change + fee, and a refusal names what is needed and the most that sixteen coins are worth, if and only if the running total does not overshoot 64 bits |
| `Merkle.NextLevel` | src/common/merkle.cpp:9-28 | the pairing loop with the padded last node gives node i from children 2i and min(2i + 1, last) |
| `Merkle.MerkleRoot` | src/common/merkle.cpp:9-28 | the level loop ends with the recursive root; none exactly for no leaves |
| `Merkle.RootIsHalved` | src/common/merkle.cpp:9-28 | the root is that of the tree split in halves: the first 2^(d-1) leaves left, the rest right, and a tree too small for a right half on both sides |
| `Merkle.RootBinds` | src/common/merkle.cpp:9-28 | for any hash function at all, equal roots of two different leaf lists of equal length give a collision: two different child pairs at one place with one hash |
| `Merkle.LengthsClash` | src/common/merkle.cpp:9-28 | for every hash function and any two different nonzero lengths, some leaf lists of those lengths share their root |
| `Merkle.RootBindsExactly` | src/common/merkle.cpp:9-28 | equal roots force equal leaves, under a hash without collisions, iff the lengths are equal |
| `Merkle.OddListsPad` | src/common/merkle.cpp:9-28 | equal length is needed: an odd list and the list with its last leaf repeated share a root |
| `KeyOrder.KeyOrderIsTotal` | src/storage/db.cpp:1998-2019 | byte-wise key order is total |
| `KeyOrder.FixedOrder` | apps/finalis-wallet/wallet_store.cpp:35-44 | zero-padded decimal text orders as the numbers do |
| `KeyOrder.CounterKeys` | apps/finalis-wallet/wallet_store.cpp:35-44 | entry keys order as their 64-bit counters, never repeat and never meet the counter key |
| `KeyOrder.ClassesApart` | apps/finalis-wallet/wallet_store.cpp:35-44 | no class prefix starts a key of another class |
| `LogStore.ScanClass` | src/storage/db.cpp:1998-2019 | a prefix scan lists exactly the keys of the class, each once, in order |
| `LogStore.ScanIsCounters` | apps/finalis-wallet/wallet_store.cpp:733-743 | in key order a class that holds a log lists entries 1 to n |
| `LogStore.OtherKeysKeep` | apps/finalis-wallet/wallet_store.cpp:733-743 | writes outside a class leave its log as it was |
| `LogStore.Store.NextSeq` | apps/finalis-wallet/wallet_store.cpp:1032-1060 | the counter is the length of the log |
| `LogStore.Store.Append` | apps/finalis-wallet/wallet_store.cpp:834-843 | a successful append extends the log by the values; one that fails after some writes leaves those past the old count, where a load still returns them; no other class is touched |
| `LogStore.RepairExactly` | apps/finalis-wallet/wallet_store.cpp:834-843 | after a failed append, a further one that succeeds puts the log in order iff it is at least as long as what was left behind |
| `LogStore.LoadAfterFailure` | apps/finalis-wallet/wallet_store.cpp:733-843 | an append that fails, one that succeeds and a load: the load returns the old log, the second records, and of the first those written past them; it is the log and the second records iff no more were written before the failure |
| `LogStore.Store.Replace` | apps/finalis-wallet/wallet_store.cpp:825-832 | a successful replace makes the log exactly the values, from any state of the class |
| `LogStore.Store.Load` | apps/finalis-wallet/wallet_store.cpp:733-743 | loading returns every entry of the class in order, those past the count included |
| `LogStore.RunAll` | apps/finalis-wallet/wallet_store.cpp:825-933 | after any mix of successful append, replace and event calls both logs are the records since the last replace, in order |
| `LogStore.LoadHistory` | apps/finalis-wallet/wallet_store.cpp:733-743 | the loaded records, decoded, are those written |
| `StatusCache.RankIsPosition` | apps/finalis-wallet/wallet_store.cpp:879-925 | in the sorted list the records ahead of the i-th are the first i |
| `StatusCache.SurvivorMeans` | apps/finalis-wallet/wallet_store.cpp:879-925 | a record survives iff it is within seven days of the newest and fewer than 64 of all records are newer, or as old with a smaller id |
| `StatusCache.NewestSurvives` | apps/finalis-wallet/wallet_store.cpp:879-925 | the newest record always survives |
| `StatusCache.PruneTwice` | apps/finalis-wallet/wallet_store.cpp:879-925 | pruning again changes nothing, and at most 64 records are left |
| `StatusCache.Store.Prune` | apps/finalis-wallet/wallet_store.cpp:879-925 | a successful prune leaves exactly the first 64, by time descending and txid ascending, of the records within 7 days of the newest; without storage faults it succeeds and malformed records are gone |
| `StatusCache.Store.Upsert` | apps/finalis-wallet/wallet_store.cpp:870-925 | the same after a put |

## Left out

- Cryptography: hashes, checksums and ticket work are function parameters, any functions at all; signatures are exact; block ids and transaction ids are idealised as values that determine their contents.
- Node timing and admission: timers, leader choice, frontier validation and peer limits are the `ready` and `member` parameters of a step; messages arrive in any order or never.
- The singleton-committee fallback rounds of the node and the operator setting that discards a vote lock.
- The certificate check on the stored valid polka when a node loads: a polka a node acts on is taken as a real quorum.
- NodeImpl.Node.HandleProposeResult: models the handler from the parent check on; decoding and validating the proposal come before it, and the precommit that a late block body can release (src/node/node_consensus.cpp:768-778) is the separate polka step `NodeImpl.Node.OnPrevotesChanged`, taken once per round.
- NodeImpl.Node.OnPrevotesChanged: models the handler from a verified prevote quorum on; counting the prevotes comes before it.
- NodeImpl.Node.ApplyFinalized: models the durable write and what it publishes for voting; ledger effects of a finalized transition are not part of this model.
- Finality.RestartKeeps: a row the loader believes, and a quarantine row it finds, is taken to be what was last written, because checksums of damaged bytes are not modelled; the rows of the finalized chain are not damaged, and a start-up whose own rewrites fail part-way is not modelled.
- WatchedRuns.ObservationExactly: the known blocks and the window of rounds are taken to include the node's own votes at the open height that the oracle does not know yet, and an observation may miss pooled precommits other than the lock; the fuzzer builds its known blocks and rounds from its own proposals.
- FuzzOracle.Oracle.Observe: the environment variable that turns off the finality-rollback rule is not modelled, so the rule is always on.
- The fuzzer's own honest peers (one vote per slot each) and its message generation.
- Traffic.RequestsNeverReused: holds while a key has issued at most 2^32 requests, because the code's counter is 32 bits wide; the model counts requests without bound and derives the index from the low 32 bits.
- TrafficRunner.Runner.BuildTimed: planning, sealing and timing of a timed transaction are parameters; what is stated is about coins.
- TrafficRunner.Runner.CrashAndLoad: the runner keeps the saved wallet as a value, because ids are idealised; its text is tied to it by `SavedWallet.ReadsAsItself`.
- TrafficRunner.Runner.Execute: covers the run phase; the end-of-run sweep does not register its transparent inputs, so it is outside the reservation invariant.
- TrafficRunner.Runner.RefreshCoins: the server never lists a confidential output of ours as a transparent coin, because the two kinds of outpoint are kept in separate sets.
- The statistics, logs and random choices of the traffic client: a choice is a parameter, a log line is nothing.
- WalletFile.FileReadsBack: for wallets whose fields have their fixed widths, which is all the client builds; a file with other content is parsed, and no claim is made that it writes back the same.
- Export.DeriveInputs: stops at the per-operator inputs the exporter writes; ticket and committee fields of its fixture come from the node library.
- Tickets.LeadingZeroBits: models the simulator's count, which the node caps at 255.
- Derivation.DeriveCheckpoint: ends with mode, reason and committee; the proposer schedule, the confirmation of checkpoint transitions and all other checkpoint fields are not modelled.
- LogStore.RunAll: for runs in which the 64-bit counters do not run out and records are in range; after a call that fails it promises nothing more, and `LogStore.Store.Append` says what a failed append leaves. What a failed replace leaves in its class is not stated, only that the next one that succeeds puts it in order.
- StatusCache.Store.Prune: a record's id is its key, and a record either parses or is malformed; its byte format is not modelled.
- CoinSelection.PlanTransfer: ends with the selected inputs and the change; building outputs, proofs and keys after that is not part of this model.
- UtcText.ParseExact: seconds are unbounded integers; the printer outside the years 2000 to 9999 is not claimed to be read back, since the parser refuses those.
- Byte and list sizes are below 2^64 where a length is written; memory limits are not modelled.
- Timed execution, the sparse Merkle tree, sync and the confidential tally.
- Peer-to-peer transport, RPC, the Qt wallet, command lines, file permissions and the keystore.
- The floating-point Monte Carlo scripts, which hold no exact invariant.
