# State channel protocol: model and proofs

This project models the state channels of the repository as two state machines and the joint runs of the two, and proves
what the protocol is for. It also models the small cores beside them.

* **The contract** (`Storage`, `DisputeRules`, `DisputeRuns`, `DisputeManagerFacet`, `StateChannelUtilLibrary`,
  `StateMachine`). The rules of every call are functions of the stored state that compute its new value or revert; the
  class `DisputeManager` carries the calls out on fields, loops and arrays, and each method is proved against its rule.
  `EvidenceVerdicts` and `CallVerdicts` state of every input what each kind of evidence and each call answers and
  stores, in the fields of the blocks and of the storage. Runs are arbitrary callers, calls and waiting times.
* **The client** (`ReplicaRules`, `ReplicaRuns`, `ClientVerdicts`, `AgreementManager`, `StateManager`). The same split:
  rules, runs, what each step answers and leaves in the stores, and the classes that change the stores in place.
* **Both together** (`JointRuns`, `JointTheorems`, `Timeouts`, `ClientDisputes`, `HonestClient`, `Certificates`,
  `ProofManager`, `AccountableSafety`, `Confirmations`): what the client computes is what the contract accepts, and what
  can happen to a client that follows the protocol. `Counterexamples`, `HonestClientExamples`, `ScriptedRuns` and
  `DrawnGames` hold the concrete runs on which the two sides disagree. `ClientLock` is about the client's mutex.
* **The cores** (`DoubleLinkedList`, `MathStateMachine`, `TicTacToe`), and the last two as the machine of a channel
  (`TicTacToeChannel`, `TicTacToeDisputes`, the end of `MathStateMachine`).

`dafny verify dfyconfig.toml` checks everything.

In `DisputeManagerFacet` and `StateManager` most methods have no loop. They are helpers, each proved equal to the rule of
the same name, so that `Transact` and `Perform` can be proved equal to one step of a run; the table below names those two
and the methods with a loop or an array.

## How to read it

* Hashing, signature recovery and the channel's state machine are functions of the parameter `Env`. Nothing is assumed
  about them. Where a hash must not collide, the theorem says so for the two blocks concerned.
* An encoded block, state or proof is identified with what it encodes: ABI encoding is taken as a bijection.
* A Solidity revert is `Revert`, a TypeScript exception is `Thrown` or `None`. A reverted call leaves no trace.
* One step is one call of the contract, or one section that the client's mutex guards. Chain time never decreases.
* The client does not roll its machine back when a hash is refused after execution. `Tracked.derailed` notes, for each
  fork, how many agreements it had when that first happened; the state-linking theorems reach exactly that far, and
  the theorems on coordinates, signatures and timestamps hold without limit. `ReplicaRuns.WhatDerails` says when it
  happens.

## Where the code surprised

These are facts of the code that the model keeps.

* `isGenesisState` compares hashes only. A channel that returns to its genesis state makes the contract revert on an
  honest certificate (`Counterexamples.CertificateRefused`) or slash the author of an accepted block
  (`Counterexamples.AcceptedBlockSlashed`). `LooksLikeGenesis` and `MistakenForGenesis` are the exact conditions. Two
  drawn TicTacToe games are enough (`DrawnGames.TwoDrawsRefused`).
* `createDispute` appends the votes and keeps the slashed list, the joins and, without a timeout, the timeout disputer of
  the dispute before. A prior-block proof folds the author of the last vote, whatever height it names. A join request is
  accepted only after its deadline.
* The decision handler of `onSignedBlock` runs with the verdict `SUCCESS` when validation throws.
* `queueConfirmation` is bound to an object without a queue and throws, so no confirmation is ever queued.
* `createIncorrectDataProof` throws for a block at the next height above 0, so the fork is then not marked as disputed.
* Removing the last TicTacToe player indexes a missing balance. A dispute that condemns both players can not be settled.
* Neither example machine lets anybody join (`_joinChannel` returns its default), so a pending join blocks every dispute.
* A threshold that names an address twice passes the client's checks and fails the contract's count off genesis
  (`Counterexamples.RepeatedThresholdFails`). `openChannel` does not refuse such a list.
* `isNewerStateValid` looks at the author of the block where the contract looks at its signer. It keeps evidence made for
  another participant than the poster, which reverts, and drops blocks that the poster only confirmed, which would slash
  (`Counterexamples.NewerStateMisjudged`, `ProofManager.NewerStateFilterIsExact`).
* The contract compares heights with `>=` for newer-state evidence (DisputeManagerFacet.sol:652), so the last vote of a
  client's own certificate slashes the client (`HonestClientExamples.OwnVoteSlashes`,
  `HonestClient.NewerStateAgainstPoster`).
* A client checks the timestamp window of the blocks it receives, but not of the blocks it plays; a late one slashes it
  (`HonestClientExamples.OwnBlockSlashed`, `HonestClient.OwnBlockVerdict`).
* A dispute that `tryTimeoutParticipant` puts off is sent when the delay is over without looking again
  (`Timeouts.DelayedTimeoutVerdict` says when it still passes). At height 0 it can pass although the client has signed the
  block, and then the client is slashed (`HonestClientExamples.DelayedTimeoutPunished`). A claim at a height without a
  block is safe as long as the machine does not derail (`HonestClient.TimeoutIsSafe`).
* On the genesis state one self-signed block of any height is an accepted certificate. As a challenge must begin no lower
  than the first vote ever posted, a participant can post a dispute that no honest client can replace
  (`ClientDisputes.SelfSignedIsAccepted`, `ClientDisputes.HighVoteStands`).
* Nothing ties the finalized state of a certificate to a state of the channel, unless the first vote is genuine
  (`HonestClientExamples.FinalizedIsNobodys`, `HonestClient.AcceptedIsHeld`).
* `onSignedBlock` unlocks the mutex after its decision handler, so a handler that throws leaves it locked, and the client
  never appends a block again. A block whose signature can not be read is enough (`ClientLock.WhatKeeps`,
  `ClientLock.StuckForever`). The runs of the other modules go on regardless, so what they prove holds for every client,
  stuck or not.

## Model

| member | source | states |
|---|---|---|
| `AccountableSafety.AccountableSafety` | src/stateManager/ValidationService.ts:43-190 | two runs of two clients that share a fork's genesis state agree on every state up to the first differing block; there the same participant, whose turn it was, signed both blocks, and, unless the two blocks have one hash, the two signatures slash it in every dispute over the fork |
| `AccountableSafety.PairConvicts` | contracts/V1/StateChannelDiamondProxy/DisputeManagerFacet.sol:463-520 | two different blocks of one height signed by one address are accepted as a double sign in every dispute over their fork; the address ends up slashed, and the evidence is a success exactly when it was not slashed before |
| `AccountableSafety.SameBlocksSameState` | src/stateManager/ValidationService.ts:164-190 | the same executed blocks on the same genesis state give the same state |
| `ReplicaRuns.RunKeeps` | src/stateManager/StateManager.ts:210-384 | after any run every agreement has the coordinates of its place, its author's signature first, readable and unrepeated signatures, and a timestamp not before its predecessor's or genesis; up to the fork's first failed execution it is the transition of the state before it by the participant whose turn it was, and the machine holds the last state of the latest fork |
| `ReplicaRuns.RunGrows` | src/agreementManager/ForkService.ts:17-83 | a longer run only appends forks, blocks, signatures and posted records, and a past fork gets no new block |
| `ReplicaRuns.RunSigns` | src/stateManager/StateManager.ts:230-384 | on every run, derailed or not, the client has signed every block it holds |
| `ReplicaRuns.WhatDerails` | src/stateManager/ValidationService.ts:164-190 | the machine moves without a recorded block exactly when a block is refused after it ran and moved the machine, or another state is set under a fork number out of sequence |
| `ReplicaRuns.AppendKeeps` | src/agreementManager/ForkService.ts:38-63 | appending a block that builds on the machine's state keeps every fork sound |
| `ReplicaRuns.ConfirmKeeps` | src/agreementManager/AgreementManager.ts:63-88 | adding a readable signature that is not there yet keeps every fork sound |
| `Certificates.CertificateCompleteness` | src/agreementManager/AgreementManager.ts:266-329 | on every run the contract's answer to the client's certificate is known exactly: a revert when the finalized state looks like genesis, otherwise acceptance, except that off genesis a threshold with repeats is refused; fork and signer are arbitrary, the signer's latest block being before the first failed execution |
| `JointTheorems.CertificateVerdict` | contracts/V1/StateChannelDiamondProxy/DisputeManagerFacet.sol:846-935 | the same on any joint run, for the participants the contract itself stores |
| `Certificates.VirtualVoteOptimality` | src/agreementManager/AgreementManager.ts:266-329 | for the highest block m signed by the signer and the highest k from which the signers of k..m cover the threshold, the certificate is exactly the blocks k..m in order with the states at k and m, and stands on genesis with the blocks 0..m when there is no such k |
| `Certificates.NothingSigned` | src/agreementManager/AgreementManager.ts:322-328 | the certificate is the bare genesis state exactly when the signer signed no block of the fork |
| `Certificates.CertificateSoundness` | contracts/V1/StateChannelDiamondProxy/DisputeManagerFacet.sol:846-935 | an accepted non-empty certificate is an unbroken chain of state hashes from the finalized (or genesis) state to the latest one, every block signed by its author; off genesis the threshold has no repeats and each of its addresses signed some block |
| `Certificates.LatestSigned` | src/agreementManager/AgreementManager.ts:288-299 | the result is the highest agreement signed by the participant, or -1 when there is none |
| `Certificates.FinalityIndex` | src/agreementManager/AgreementManager.ts:309-320 | the result is the highest start from which the agreements up to m cover the threshold, or -1 when there is none |
| `Counterexamples.CertificateRefused` | contracts/V1/StateChannelDiamondProxy/StateChannelCommon.sol:33-41 | a concrete run of an honest client, back at its genesis state, whose certificate the contract reverts on |
| `Counterexamples.RepeatedThresholdFails` | contracts/V1/StateChannelDiamondProxy/DisputeManagerFacet.sol:934-934 | a concrete run in a channel that names its participant twice, whose certificate the contract does not misread but refuses |
| `ScriptedRuns.ScriptRuns` | src/stateManager/StateManager.ts:230-384 | a client takes part in every script of moves that its machine allows to it and one other participant |
| `ScriptedRuns.ReturnIsRefused` | contracts/V1/StateChannelDiamondProxy/StateChannelCommon.sol:33-41 | on any machine, when a move of the other brings such a channel back to its genesis state and not from there, the contract reverts on the client's certificate |
| `DrawnGames.TwoDrawsRefused` | examples/TicTacToe/contracts/TicTacToe/TicTacToeStateMachine.sol:39-131 | two TicTacToe games that end in a draw do that |
| `JointTheorems.AcceptedBlocksAreImmune` | contracts/V1/StateChannelDiamondProxy/DisputeManagerFacet.sol:522-622 | a block the client accepted, judged at any later chain time with its true predecessor and pre-state, is never slashed, unless its pre-state is mistaken for genesis and it is late counted from there, and then it always is |
| `JointTheorems.CorrectBlockVerdict` | contracts/V1/StateChannelDiamondProxy/DisputeManagerFacet.sol:558-622 | for a linked block that runs to its state hash the evidence decides by the timestamp alone: in time nothing changes, late the author is slashed |
| `Counterexamples.AcceptedBlockSlashed` | contracts/V1/StateChannelDiamondProxy/DisputeManagerFacet.sol:560-576 | a concrete run on which an accepted block of a channel back at genesis gets its author slashed |
| `HonestClient.OneBlockPerHeight` | src/agreementManager/ForkService.ts:38-63 | over any joint run, derailed or not, the client stands by one block for each fork and height |
| `HonestClient.NeverDoubleSigns` | contracts/V1/StateChannelDiamondProxy/DisputeManagerFacet.sol:463-520 | no list of double-sign evidence adds the client to the slashed, as long as its signatures are its own |
| `HonestClient.PlayedIsRecorded` | src/stateManager/StateManager.ts:332-384 | what the client can play it appends, under its own signature |
| `HonestClient.OwnBlockVerdict` | contracts/V1/StateChannelDiamondProxy/DisputeManagerFacet.sol:522-622 | a block the client played, judged at any later chain time with its true predecessor and pre-state, gets it slashed exactly when it is late: no window is checked when it is played |
| `HonestClient.NewerStateAgainstPoster` | contracts/V1/StateChannelDiamondProxy/DisputeManagerFacet.sol:624-661 | a dispute or challenge that the client posts on its best certificate: when it has a block on the fork, the last vote itself, with the client's own signature, slashes the client; when it has none, no newer-state evidence with a genuine signature does, whatever votes were stored before |
| `HonestClient.NewerStateAgainstStored` | contracts/V1/StateChannelDiamondProxy/DisputeManagerFacet.sol:280-288 | the same of the dispute that an accepted createDispute or challengeDispute of the client, at any point of a joint run, stores |
| `HonestClient.AcceptedIsHeld` | contracts/V1/StateChannelDiamondProxy/DisputeManagerFacet.sol:846-935 | a certificate that the contract accepts off genesis, whoever made it, has a block that the client holds, with the state it recorded; the finalized state is the client's when the client signed the first vote |
| `HonestClient.TimeoutIsSafe` | src/stateManager/StateManager.ts:416-483 | once a timeout claimed at a height without a block is accepted, the fork is marked as disputed and the machine does not derail, the evidence that everyone signed a block at that height reverts for the rest of the run |
| `HonestClient.WhatSlashes` | contracts/V1/StateChannelDiamondProxy/DisputeManagerFacet.sol:352-426 | the only evidence that can slash the client: a timeout it claimed of a block everyone signed, a block of its own judged incorrect, a block it signed at or above the last vote of a state it posted, and a block of its own ahead of the chain time |
| `HonestClientExamples.OwnBlockSlashed` | src/stateManager/StateManager.ts:573-579 | a concrete joint run on which a client plays late and a call by the other participant gets it slashed for the block |
| `HonestClientExamples.OwnVoteSlashes` | contracts/V1/StateChannelDiamondProxy/DisputeManagerFacet.sol:651-655 | a concrete joint run on which a client's dispute is accepted and a challenge with the only vote of its certificate gets the client slashed |
| `HonestClientExamples.DelayedTimeoutPunished` | src/stateManager/StateManager.ts:465-482 | a concrete joint run on which a put-off timeout at height 0 is disputed although the block has come and the client has confirmed it, and a challenge gets the client slashed |
| `HonestClientExamples.FinalizedIsNobodys` | contracts/V1/StateChannelDiamondProxy/DisputeManagerFacet.sol:846-935 | an accepted certificate off genesis whose finalized state was never a state of the channel |
| `ClientLock.WhatKeeps` | src/stateManager/StateManager.ts:230-267 | exactly which signed blocks leave the mutex locked: an unreadable signature, unless the block is held without the client's own signature, and a next block that is older than its predecessor, or too far ahead in the client's turn, or good and signed with the client's own signature |
| `ClientLock.FreeRun` | src/stateManager/StateManager.ts:230-267 | as long as no decision handler throws, the client with its mutex takes every step of a run |
| `ClientLock.LockedWhen` | src/stateManager/StateManager.ts:230-267 | the mutex is left locked exactly when some step of the ordinary run is a signed block whose handler throws, whether it arrives alone or is brought in for a confirmation |
| `ClientLock.StuckForever` | src/stateManager/StateManager.ts:230-267 | once the mutex is left locked, no fork ever gets another block |
| `ClientLock.LockedStep` | src/stateManager/StateManager.ts:230-267 | with the mutex locked signed blocks, own transactions and confirmations of blocks not in the chain wait; every other step is still taken |
| `JointTheorems.FastPathAgrees` | src/stateManager/ValidationService.ts:213-244 | deciding a timestamp locally gives the same verdict as always asking the contract |
| `JointTheorems.GoodTimestampForever` | contracts/V1/StateChannelDiamondProxy/DisputeManagerFacet.sol:947-968 | a timestamp the client finds good is good for the contract then and at every later time; the only other outcome is the revert of an addition beyond 2^256 |
| `JointTheorems.RecordIsBehindChain` | src/agreementManager/OnChainTracker.ts:45-55 | on any joint run the client's latest posted time is never above the contract's |
| `JointTheorems.PostedTimeGrows` | contracts/V1/StateChannelDiamondProxy/StateChannelCommon.sol:83-107 | the contract's latest posted time never decreases over a run |
| `JointTheorems.ChainLatestIsMaximum` | contracts/V1/StateChannelDiamondProxy/StateChannelCommon.sol:83-107 | the contract's loop finds the maximum of the posted times up to the height, or 0 |
| `JointTheorems.ClientLatestIsMaximum` | src/agreementManager/OnChainTracker.ts:45-55 | the client's loop finds the maximum of the recorded times up to the height, or 0 |
| `JointRuns.RunKeeps` | src/stateManager/StateManager.ts:210-227 | on any joint run of contract and client both keep their invariants, the client has signed every block it holds, and its forks and posted records are the contract's own, with posted times not ahead |
| `JointRuns.EverythingIsPublished` | contracts/V1/StateChannelDiamondProxy/StateChannelCommon.sol:109-116 | on any joint run every fork of the contract has its SetState event, with its state and its time |
| `Timeouts.TimeoutVerdict` | contracts/V1/StateChannelDiamondProxy/DisputeManagerFacet.sol:138-188 | on any joint run the contract accepts a timeout that the client claims on its best certificate exactly when, above height 0, no block is recorded at the height, it is the participant's turn in the last state, nothing was posted, the wait is over since the block before and the last post, and the participant is not the client |
| `Timeouts.TimeoutIsAccepted` | src/stateManager/StateManager.ts:416-464 | on any joint run a timeout check scheduled for the participant whose turn it is and fired at once, with no block at that height, passes every timeout check of createDispute, if the client's clock is not ahead of the chain's and its record of posted blocks is current |
| `Timeouts.DelayedTimeoutVerdict` | src/stateManager/StateManager.ts:465-482 | the dispute that a timeout check puts off, whether or not a block stood at the height, passes those checks, whatever happened during the delay, exactly when no block is recorded at the height, unless it is 0, it is the participant's turn in the last state, nothing was posted, and the wait is over also since the last post; the delay is counted on a clock not ahead of the chain's |
| `Timeouts.CheckAnswer` | src/stateManager/StateManager.ts:416-483 | the answer of a check in every state that a run reaches: it skips exactly for the client itself, an unknown fork, a block that everyone signed, a post known or found, and before the wait since the latest known post; otherwise it disputes at once when the wait since the last block is over, and else after what is left of it |
| `Timeouts.ClaimIsHonest` | src/stateManager/StateManager.ts:416-483 | whenever a check does not skip, the client holds no evidence that would undo the timeout |
| `Timeouts.RechallengeExists` | src/ProofManager.ts:43-69 | on any run there is evidence against a timeout exactly when the client holds a block at the height that every address of the threshold signed, and it is that block with all its signatures |
| `ClientVerdicts.UnauthenticArrival` | src/stateManager/ValidationService.ts:43-78 | a signed block of another channel or not signed by its author: disconnect and no change; an unreadable signature is an exception that still confirms the block if it is held and not confirmed yet |
| `ClientVerdicts.UntimelyArrival` | src/stateManager/ValidationService.ts:49-96 | a block of a past or disputed fork and a known block change nothing; a block that comes early is queued under its fork, height and author |
| `ClientVerdicts.StrangersArrival` | src/stateManager/ValidationService.ts:72-78 | a new block by somebody who is not in the latest fork is a disconnect without change |
| `ClientVerdicts.ConflictingArrival` | src/stateManager/ValidationService.ts:80-94 | a new block at a height that is taken marks its fork as disputed: for a double sign when the author holds the height, and else when the client can prove the block incorrect |
| `ClientVerdicts.NextArrival` | src/stateManager/ValidationService.ts:98-190 | a participant's block at the next height, exactly: appended with its signature and then the client's own when the time, the turn, the machine and both hashes agree; otherwise what is refused, what marks the fork, what is thrown and when the machine has moved |
| `ClientVerdicts.ProvableOnRuns` | src/ProofManager.ts:367-412 | on any run the client can prove a block incorrect exactly at height 0 and at a height it holds |
| `ClientVerdicts.ConfirmationOfHeld` | src/stateManager/StateManager.ts:270-309 | a readable confirmation of a held block of the latest fork by a participant is appended to its signatures, once, and nothing else changes; a listed one is a duplicate, a stranger's a disconnect |
| `ClientVerdicts.ConfirmationOfNew` | src/stateManager/ValidationService.ts:115-160 | a confirmation of a block that is not held takes the block as if it came alone; when it is appended the confirmation follows as to a held block, and when it waits in the queue the confirmation is lost |
| `ClientVerdicts.ConfirmationOfOther` | src/stateManager/ValidationService.ts:115-160 | a confirmation of a block of a past fork, of another channel or not signed by its author changes nothing |
| `Confirmations.ThresholdCompleted` | src/agreementManager/AgreementManager.ts:63-88 | when every address of the threshold has signed a held block or confirms it, in whatever order and however often, everyone has signed it in the end |
| `Confirmations.ConfirmationCompletes` | src/stateManager/StateManager.ts:270-309 | a concrete run in which the last confirmation arrives: with it the block is final, a timeout there can be undone and is no longer claimed |
| `ClientVerdicts.PlayOutcome` | src/stateManager/StateManager.ts:332-384 | the client plays exactly in its turn when the machine accepts; the block is never older than the one before, has the hashes before and after, and is appended under the client's signature |
| `ClientVerdicts.SetStateOutcome` | src/stateManager/StateManager.ts:210-227 | a state set on chain always moves the machine, and becomes a fork only under the next number |
| `ClientVerdicts.CheckOutcome` | src/agreementManager/BlockValidator.ts:49-92 | the verdict of the block checker for every block |
| `ClientVerdicts.CollectOutcome` | src/stateManager/StateManager.ts:131-169 | what a posted block leaves in the stores: a mark for a conflict, a record for a known block, and the queue and a record for any other |
| `ClientVerdicts.CollectThrowsOutcome` | src/stateManager/StateManager.ts:131-169 | collecting a posted block throws exactly when its signature can not be read, when it is new and wrong and the client can not prove it, or when it is by its author on an unknown fork |
| `ClientVerdicts.SeenIsMarked` | src/DisputeHandler.ts:141-144 | a fork of which a dispute was seen stays marked for the rest of the run |
| `ClientVerdicts.RunRecordsOnce` | src/agreementManager/OnChainTracker.ts:21-42 | on any run a post is recorded at most once for its height and author |
| `ClientVerdicts.DequeueOutcome` | src/agreementManager/QueueService.ts:52-63 | exactly what waits for that fork and height leaves the queue |
| `ClientDisputes.CallVerdict` | src/DisputeHandler.ts:147-228 | on any joint run, up to the fork's first failed execution, createDispute on the client's best certificate is what its evidence and the settling make of it when no dispute is in progress, the fork is the contract's latest, the client is a participant, its certificate is not misread and not miscounted, and a claimed timeout holds; otherwise it reverts |
| `ClientDisputes.TimeoutCallVerdict` | src/DisputeHandler.ts:147-228 | a call that claims a timeout without evidence succeeds exactly when these conditions hold, the client was not slashed before, and the state machine can be settled; it names the participant and opens the next fork |
| `ClientDisputes.TimeoutDisputeSucceeds` | contracts/V1/StateChannelDiamondProxy/DisputeManagerFacet.sol:108-217 | the whole call on a timeout fired at once, where the client's clock is not ahead and its record current, no dispute is in progress, the fork is the latest, the client is a participant never slashed and its certificate is not misread: it succeeds exactly when the state machine can be settled |
| `ClientDisputes.DoubleSignCallVerdict` | src/DisputeHandler.ts:75-89 | the whole call on whatever the client flags as a double sign of somebody else succeeds, and slashes exactly the author, exactly when the client may dispute, neither of the two was slashed before, and the state machine can be settled without the author |
| `ClientDisputes.ChallengeVerdict` | contracts/V1/StateChannelDiamondProxy/DisputeManagerFacet.sol:255-279 | on any joint run, up to the fork's first failed execution, the client's best certificate supersedes a dispute exactly when it is not misread and not miscounted, both sides have votes, and it begins no lower than the first vote ever posted |
| `ClientDisputes.HighVoteStands` | contracts/V1/StateChannelDiamondProxy/DisputeManagerFacet.sol:219-293 | when that first vote is at or above the number of the client's blocks, every challenge on the client's certificate reverts, whatever its evidence |
| `ClientDisputes.SelfSignedIsAccepted` | contracts/V1/StateChannelDiamondProxy/DisputeManagerFacet.sol:846-935 | on the genesis state one block signed by its author alone is an accepted certificate, for any state, at any height |
| `DisputeRuns.ForkBookkeeping` | contracts/V1/StateChannelDiamondProxy/DisputeManagerFacet.sol:108-293 | after any run forks have no gaps, genesis is fork 0, genesis times never decrease, and the latest fork is dispute fork + 1 + challenges and stores the dispute's latest state |
| `DisputeRuns.RunKeeps` | contracts/V1/StateChannelDiamondProxy/StateChannelCommon.sol:109-116 | over any run each fork's state and genesis time is written once, posted times only grow, and votes and slashed addresses are only appended, the latter without repeats |
| `DisputeRuns.BoundedChallenging` | contracts/V1/StateChannelDiamondProxy/DisputeManagerFacet.sol:219-293 | however calls interleave, successful slashing challenges plus the addresses slashed before number at most the addresses the evidence can name |
| `DisputeRuns.CreateKeeps` | contracts/V1/StateChannelDiamondProxy/DisputeManagerFacet.sol:108-217 | an accepted createDispute comes when no dispute is in progress and on the latest fork, and stores the sender's dispute: its votes behind the old ones, its finalized state, the deadline from now, no challenge; the chain stays consistent and the sender is not slashed |
| `DisputeRuns.ChallengeKeeps` | contracts/V1/StateChannelDiamondProxy/DisputeManagerFacet.sol:219-293 | an accepted challenge keeps the fork and counts one up; the stored dispute is now the sender's, with its votes behind the old ones, its finalized state and a new deadline; the sender is not slashed, and with slashing evidence only the slashed list gets longer |
| `DisputeRuns.EachKeeps` | contracts/V1/StateChannelDiamondProxy/DisputeManagerFacet.sol:352-426 | a list of evidence changes only the timeout, slashed list and joins; the slashed list grows without repeats and by named addresses only; when every piece is slashing evidence, the call is a success exactly when the list grew |
| `DisputeRuns.DisputeLasts` | contracts/V1/StateChannelDiamondProxy/StateChannelCommon.sol:134-138 | over any run up to the deadline of a dispute it stays over its fork and participants, its challenge count grows by exactly the accepted challenges, its deadline never comes earlier, and without a challenge nothing of it changes |
| `DisputeRuns.DisputeIsOver` | contracts/V1/StateChannelDiamondProxy/DisputeManagerFacet.sol:219-236 | from the deadline on every challenge reverts; at the deadline itself a new dispute does too |
| `EvidenceVerdicts.IncorrectDataVerdict` | contracts/V1/StateChannelDiamondProxy/DisputeManagerFacet.sol:522-622 | evidence about a block, exactly: a revert unless both blocks are of the dispute, signed by their authors and linked to the pre-state, and a revert when the time limit overflows; otherwise the author ends up slashed exactly when the block is older than its predecessor, late, refused by the machine, or not of the state its hash names, a success iff it was not slashed before; otherwise nothing changes |
| `EvidenceVerdicts.FoldRechallengeVerdict` | contracts/V1/StateChannelDiamondProxy/DisputeManagerFacet.sol:428-461 | accepted exactly for the block of the claimed timeout with readable signatures that contain every participant as often as it is named; then the timeout is undone and who claimed it slashed |
| `EvidenceVerdicts.ThresholdVerdict` | contracts/V1/StateChannelDiamondProxy/StateChannelUtilLibrary.sol:11-63 | the threshold check says yes exactly when some list of signers, one for each signature, contains the required addresses with multiplicity; it reverts exactly when there are enough signatures and one can not be read |
| `EvidenceVerdicts.DoubleSignVerdict` | contracts/V1/StateChannelDiamondProxy/DisputeManagerFacet.sol:463-520 | a list of pairs is accepted exactly when each is two blocks of one height of the dispute with different hashes and one signer; the slashed are then those before and the signers, without repeats; it is a success iff one of them is new, and the timeout is undone iff a pair is of a lower height and by then somebody new was slashed |
| `EvidenceVerdicts.NewerStateVerdict` | contracts/V1/StateChannelDiamondProxy/DisputeManagerFacet.sol:624-661 | accepted exactly for a block of the dispute with the poster's signature at or above the last vote; then the poster is slashed |
| `EvidenceVerdicts.FoldPriorBlockVerdict` | contracts/V1/StateChannelDiamondProxy/DisputeManagerFacet.sol:663-703 | accepted exactly when some vote has the height, it is below the claimed one, and the author of the last vote posted nothing there before the dispute was created; that author is then timed out, in the sender's name |
| `EvidenceVerdicts.BlockTooFarInFutureVerdict` | contracts/V1/StateChannelDiamondProxy/DisputeManagerFacet.sol:705-746 | accepted exactly for a block of the dispute that a participant signed as its author and that is ahead of the chain time; the author is then slashed |
| `EvidenceVerdicts.JoinVerdict` | contracts/V1/StateChannelDiamondProxy/DisputeManagerFacet.sol:748-801 | accepted exactly when everyone and the joiner signed the request, it is for the channel, by nobody who is a participant or pending, its deadline has passed, it is the sender's turn and the hook agrees; it is then appended |
| `CallVerdicts.FinalizedOutcome` | contracts/V1/StateChannelDiamondProxy/DisputeManagerFacet.sol:846-935 | the answer to a certificate, exactly: a revert unless every vote is of the fork, with readable signatures and its author's among them, and the hashes lead from the finalized to the latest state; otherwise yes iff it stands on genesis or the threshold has no repeats and each of its addresses signed some vote |
| `CallVerdicts.TimeoutOutcome` | contracts/V1/StateChannelDiamondProxy/DisputeManagerFacet.sol:138-188 | exactly when a claimed timeout stands |
| `CallVerdicts.EvidenceOutcome` | contracts/V1/StateChannelDiamondProxy/DisputeManagerFacet.sol:352-426 | a list is accepted exactly when there is a chain of disputes, each left by one more piece, and the sender is not slashed in the last; it counts iff one piece did |
| `CallVerdicts.SettlingOutcome` | contracts/V1/StateChannelDiamondProxy/DisputeManagerFacet.sol:295-350 | settling succeeds exactly when there are states through which all joins, the slashes, the leaves and the timeout lead; it stores the last state and the exits of the three passes in that order |
| `CallVerdicts.CreateOutcome` | contracts/V1/StateChannelDiamondProxy/DisputeManagerFacet.sol:108-217 | createDispute field by field: when it goes on to its evidence, and the dispute it then begins; the votes are appended to those of the dispute before, and the joins, the slashed and, without a timeout, who claimed one stay |
| `CallVerdicts.ChallengeOutcome` | contracts/V1/StateChannelDiamondProxy/DisputeManagerFacet.sol:219-293 | challengeDispute field by field: when it is accepted, with the poster, votes, finalized state and deadline that it stores |
| `CallVerdicts.PostOutcome` | contracts/V1/StateChannelDiamondProxy/AStateChannelManagerProxy.sol:395-453 | postBlockCalldata is accepted exactly for the sender's own block, signed by it, not ahead of the chain time and at most the three waits behind it, and stores the block with the time now |
| `CallVerdicts.FoundWhenPosted` | contracts/V1/StateChannelDiamondProxy/StateChannelCommon.sol:68-81 | on any run getBlockCallData finds something exactly when the author has posted at that height, at a time other than 0 |
| `CallVerdicts.LatestIsLastPost` | contracts/V1/StateChannelDiamondProxy/StateChannelCommon.sol:83-107 | on any run the latest posted time up to a height, which the loop takes as a maximum over all keys, is the time of the last accepted post at or below that height |
| `ProofManager.DoubleSignIsUsable` | src/ProofManager.ts:75-103 | whatever a client flags as a double sign on any run it proves by one pair, which, unless the two blocks have one hash, convicts the author in every dispute over the fork |
| `ProofManager.DoubleSignPairsAre` | src/ProofManager.ts:75-103 | on any run double-sign evidence has exactly the pairs of a given block and the other block by its author that the client holds in its place, with that author's signature |
| `ProofManager.DoubleSignFilterIsExact` | src/ProofManager.ts:228-243 | the client's filter keeps double-sign evidence exactly for the disputes in which the contract counts it as a success |
| `ProofManager.PastBlockIsDisputed` | src/stateManager/ValidationService.ts:80-94 | a block below the next height of the latest fork is always disputed: the internal error is unreachable |
| `ProofManager.NewerStateVerdict` | src/ProofManager.ts:138-158 | newer-state evidence made on any run for a participant slashes in a dispute exactly when the participant posted its state, is not slashed yet and signed at or above the last vote; it reverts exactly when it did not post or signed lower |
| `ProofManager.NewerStateFilterIsExact` | src/ProofManager.ts:263-296 | of that evidence the client's filter drops, among what would slash, exactly the blocks the participant did not author and those at the last vote's height; of what it keeps, exactly the evidence made for the poster slashes, and all other reverts |
| `Counterexamples.NewerStateMisjudged` | src/ProofManager.ts:263-296 | on a concrete run, evidence of a block the participant only confirmed is kept where it reverts and dropped where it would slash |
| `ProofManager.NewerStateExists` | src/ProofManager.ts:138-158 | on any run there is newer-state evidence against a participant exactly when it signed a recorded block above the given height |
| `ProofManager.LatestSignedBlockIs` | src/agreementManager/AgreementManager.ts:130-153 | the block found is that of the highest agreement with a signature by the participant, with its first signature there; none is found exactly when it signed nothing |
| `ProofManager.FoldRechallengeIsUsable` | src/ProofManager.ts:43-69 | evidence that everyone signed the block of a claimed timeout is accepted, undoes the timeout and slashes its author unless slashed already |
| `ProofManager.EveryoneIsThreshold` | src/agreementManager/AgreementManager.ts:154-177 | asking whether everyone signed and the contract's threshold check are the same question when no address stands twice in the threshold |
| `ProofManager.ReadParticipantSignature` | src/utils/BlockUtils.ts:61-74 | the first signature read as the participant's, or none; it throws exactly when one that can not be read comes before any of the participant's |
| `StateChannelUtilLibrary.VerifyThresholdSigned` | contracts/V1/StateChannelDiamondProxy/StateChannelUtilLibrary.sol:11-63 | the nested counting loops return true exactly when the required addresses are contained, with multiplicity, in the recovered signers, whatever the order, extras or repeats |
| `StateChannelUtilLibrary.CountSigner` | contracts/V1/StateChannelDiamondProxy/StateChannelUtilLibrary.sol:36-57 | one recovered signer uses up one free slot of its address, by position or by search |
| `StateChannelUtilLibrary.TryInsertAddressInThresholdSet` | contracts/V1/StateChannelDiamondProxy/StateChannelUtilLibrary.sol:90-111 | the set stays free of repeats, gains exactly an expected address that was missing, and is never written out of bounds |
| `StateChannelUtilLibrary.RoomForOneMore` | contracts/V1/StateChannelDiamondProxy/StateChannelUtilLibrary.sol:90-111 | a set without repeats that misses an expected address is not full |
| `StateChannelUtilLibrary.IsAddressInArray` | contracts/V1/StateChannelDiamondProxy/StateChannelUtilLibrary.sol:79-87 | the search finds exactly the members |
| `DisputeManagerFacet.DisputeManager.Transact` | contracts/V1/StateChannelDiamondProxy/DisputeManagerFacet.sol:108-293 | one transaction in place, with all the handlers below it, moves the stored state by one step of the runs that the theorems speak of; a reverted one leaves it as it was |
| `DisputeManagerFacet.DisputeManager.IsFinalizedAndLatest` | contracts/V1/StateChannelDiamondProxy/DisputeManagerFacet.sol:846-935 | the certificate check with its in-place signer set gives the order-free verdict: every vote well signed and linked, and off genesis every threshold address among the voters |
| `DisputeManagerFacet.CheckVotes` | contracts/V1/StateChannelDiamondProxy/DisputeManagerFacet.sol:861-932 | the loop passes exactly when every vote is well signed and linked, and then counts the threshold addresses that voted |
| `DisputeManagerFacet.CollectSigners` | contracts/V1/StateChannelDiamondProxy/DisputeManagerFacet.sol:882-903 | one vote adds exactly its signers that are in the threshold |
| `DisputeManagerFacet.DisputeManager.ApplyAll` | contracts/V1/StateChannelDiamondProxy/DisputeManagerFacet.sol:352-426 | the evidence loop leaves the dispute that the pieces, taken in order, lead to; the call counts as a success as soon as one piece does, and reverts when one reverts or the sender ends up slashed |
| `DisputeManagerFacet.DisputeManager.ApplyDoubleSignProof` | contracts/V1/StateChannelDiamondProxy/DisputeManagerFacet.sol:463-520 | the loop over pairs slashes the signer of each pair once and stays a success after the first new slash; a pair that is no double sign reverts them all |
| `DisputeManagerFacet.DisputeManager.ApplyFoldPriorBlockProof` | contracts/V1/StateChannelDiamondProxy/DisputeManagerFacet.sol:663-703 | the search for a vote of the named height, and the fold of the author on which the loop variable is left: the last vote's |
| `DisputeManagerFacet.DisputeManager.InsertJoinChannelIfNotExist` | contracts/V1/StateChannelDiamondProxy/DisputeManagerFacet.sol:835-844 | a join request is appended exactly when no pending request is by the same participant |
| `DisputeManagerFacet.DisputeManager.InsertIfNotExist` | contracts/V1/StateChannelDiamondProxy/DisputeManagerFacet.sol:813-822 | an address is appended exactly when it is not in the slashed list |
| `DisputeManagerFacet.DisputeManager.RemoveFromStateMachine` | contracts/V1/StateChannelDiamondProxy/AStateChannelManagerProxy.sol:315-373 | the first cells of the array are exactly the exits of the successful removals, in order, failed ones overwritten, and every write is in bounds; it reverts when one removal does |
| `DisputeManagerFacet.DisputeManager.ApplyJoinChannelToStateMachine` | contracts/V1/StateChannelDiamondProxy/AStateChannelManagerProxy.sol:299-313 | joins are applied in order and the successful ones counted; it reverts when one join does |
| `DisputeManagerFacet.DisputeManager.PushExits` | contracts/V1/StateChannelDiamondProxy/DisputeManagerFacet.sol:322-347 | the loop appends exactly the first exits of the array, in order |
| `DisputeManagerFacet.DisputeManager.CopyVotes` | contracts/V1/StateChannelDiamondProxy/DisputeManagerFacet.sol:937-944 | the loop appends the posted votes to the stored ones, which are kept |
| `DisputeManagerFacet.DisputeManager.GetChainLatestBlockTimestamp` | contracts/V1/StateChannelDiamondProxy/StateChannelCommon.sol:83-107 | the loop returns the latest posted time up to the height |
| `DisputeRules.NobodyJoins` | contracts/V1/StateChannelDiamondProxy/DisputeManagerFacet.sol:295-307 | on a machine that lets nobody join a dispute with a pending join can not be settled |
| `DisputeRules.SettlingIsTwoPasses` | contracts/V1/StateChannelDiamondProxy/DisputeManagerFacet.sol:295-350 | without joins and leaves settling is the slashing pass followed by the timeout pass, reverting when either does |
| `StateManager.Manager.Perform` | src/stateManager/StateManager.ts:131-384 | one step in place, with all the handlers below it, moves the client's stores by one step of the runs that the theorems speak of, also when the original throws in the middle |
| `StateManager.Manager.TryTimeoutParticipant` | src/stateManager/StateManager.ts:416-483 | the decision on the client's stores whose consequences the timeout theorems state: skip, dispute at once, or dispute after a delay |
| `AgreementManager.GetFinalizedAndLatestWithVotes` | src/agreementManager/AgreementManager.ts:266-329 | the backward loop over four variables returns the best certificate; it throws only on an unreadable signature |
| `AgreementManager.GetLatestSignedBlockByParticipant` | src/agreementManager/AgreementManager.ts:130-153 | the backward search returns the participant's latest signed block; it throws only on an unreadable signature |
| `AgreementManager.GetParticipantSignature` | src/utils/BlockUtils.ts:61-74 | the loop returns the first signature of the participant, or throws on one that can not be read before it |
| `AgreementManager.SignerAddresses` | src/utils/BlockUtils.ts:50-59 | the set of signers, or a throw when one can not be read |
| `AgreementManager.ForkService.NewFork` | src/agreementManager/ForkService.ts:17-32 | a fork is appended exactly when its number is the next one |
| `AgreementManager.ForkService.AddBlock` | src/agreementManager/ForkService.ts:38-63 | a block is appended to its fork unless its height is taken or its fork unknown |
| `AgreementManager.ForkService.AddChainBlock` | src/agreementManager/ForkService.ts:68-83 | a posted record is appended to a known fork |
| `AgreementManager.ForkService.Confirm` | src/agreementManager/AgreementManager.ts:63-88 | a signature is appended once, to exactly the block it is for |
| `AgreementManager.QueueService.QueueBlock` | src/agreementManager/QueueService.ts:14-50 | the nested maps act as one map by fork, height and author, with overwriting |
| `AgreementManager.QueueService.TryDequeueBlocks` | src/agreementManager/QueueService.ts:52-63 | exactly the blocks of that fork and height are returned and removed |
| `AgreementManager.QueueService.IsBlockQueued` | src/agreementManager/QueueService.ts:101-109 | true exactly when this very block is queued |
| `AgreementManager.OnChainTracker.LatestTimestamp` | src/agreementManager/OnChainTracker.ts:45-55 | the loop returns the latest recorded time up to the height |
| `AgreementManager.OnChainTracker.Collect` | src/agreementManager/OnChainTracker.ts:21-42 | a new block is queued, and a post is recorded once for its height and author; it throws exactly on an unknown fork |
| `DoubleLinkedList.RunRefines` | contracts/common/DoubleLinkedList.sol:49-95 | over any run of additions and removals that a list allows, the storage threads exactly the sequence the same operations give, with mirrored links and the right length |
| `DoubleLinkedList.AddPrepends` | contracts/common/DoubleLinkedList.sol:49-63 | addFront of a new non-zero id prepends it |
| `DoubleLinkedList.RemoveDeletes` | contracts/common/DoubleLinkedList.sol:65-78 | removeNode of a present id deletes exactly it, although the head is a possibly stale copy |
| `DoubleLinkedList.IndexReads` | contracts/common/DoubleLinkedList.sol:88-95 | getAtIndex(i) is element i with its links, and reverts beyond the length |
| `DoubleLinkedList.AddKeepsIff` | contracts/common/DoubleLinkedList.sol:49-63 | the storage is still a list after addFront exactly when the id is non-zero and new |
| `DoubleLinkedList.RemoveKeepsIff` | contracts/common/DoubleLinkedList.sol:65-78 | removeNode reverts exactly on the empty list, and otherwise keeps a list exactly when the id is present |
| `DoubleLinkedList.List.Add` | contracts/common/DoubleLinkedList.sol:49-63 | addFront on the fields computes the storage the refinement is about |
| `DoubleLinkedList.List.Remove` | contracts/common/DoubleLinkedList.sol:65-78 | removeNode on the fields computes that storage, or reverts unchanged |
| `DoubleLinkedList.List.AtIndex` | contracts/common/DoubleLinkedList.sol:88-95 | the walk returns the node the rule names |
| `MathStateMachine.NewForkParticipants` | contracts/V1/StateChannelDiamondProxy/DisputeManagerFacet.sol:295-350 | after any accepted dispute or challenge the new fork's participants are the posted ones minus the condemned, and the exits name each condemned participant that was there once, in order |
| `MathStateMachine.DisputeOutcome` | contracts/V1/StateChannelDiamondProxy/DisputeManagerFacet.sol:295-350 | the same for one settling, slash order then timeout, with the number unchanged; it reverts exactly when a join is pending, because the machine lets nobody join |
| `MathStateMachine.ExitsAreDistinct` | contracts/V1/StateChannelDiamondProxy/AStateChannelManagerProxy.sol:315-373 | no participant has two exits, and exactly the condemned that were there have one |
| `MathStateMachine.RemoveTakesOut` | contracts/V1/examples/MathStateMachine/MathStateMachine.sol:65-81 | swap with the last and pop removes exactly the participant, keeps the others distinct, and succeeds exactly when it was there |
| `MathStateMachine.Machine.RemoveParticipant` | contracts/V1/examples/MathStateMachine/MathStateMachine.sol:65-81 | the loop on the fields computes that removal |
| `MathStateMachine.Machine.Add` | contracts/V1/examples/MathStateMachine/MathStateMachine.sol:19-28 | accepted exactly in turn and without overflow, and then adds the amount |
| `TicTacToe.RunMovesBets` | examples/TicTacToe/contracts/TicTacToe/TicTacToeStateMachine.sol:39-131 | over any run, however often seats change, each player's balance is its deposit plus its winnings |
| `TicTacToe.Run` | examples/TicTacToe/contracts/TicTacToe/TicTacToeStateMachine.sol:39-131 | any moves by anyone keep the invariant, the total, the bet and the two players |
| `TicTacToe.MoveMovesBet` | examples/TicTacToe/contracts/TicTacToe/TicTacToeStateMachine.sol:52-75 | a decided game moves exactly min(bet, loser's balance) from the loser's to the winner's address; any other move moves nothing; an ended game is followed by a new one with seats changed |
| `TicTacToe.MoveIsAccepted` | examples/TicTacToe/contracts/TicTacToe/TicTacToeStateMachine.sol:39-47 | a move is accepted exactly when it is the player's turn and the cell is on the board and empty: no sum overflows |
| `TicTacToe.CheckWinnerIsScan` | examples/TicTacToe/contracts/TicTacToe/TicTacToeStateMachine.sol:77-110 | after a move on a board without lines the local check equals a scan of the whole board for either mark |
| `TicTacToe.MoveKeepsPlaying` | examples/TicTacToe/contracts/TicTacToe/TicTacToeStateMachine.sol:39-75 | marks alternate, no line survives a step, the turn follows the count, and the total is conserved |
| `TicTacToe.FirstRemoval` | examples/TicTacToe/contracts/TicTacToe/TicTacToeStateMachine.sol:169-192 | the first player to leave pays the bet, and its exit with what remains is the total |
| `TicTacToe.LastRemovalReverts` | examples/TicTacToe/contracts/TicTacToe/TicTacToeStateMachine.sol:174-190 | removing the last player always reverts |
| `TicTacToeChannel.DecodeEncode` | examples/TicTacToe/contracts/TicTacToe/TicTacToeStateMachine.sol:137-144 | a game is read back from its words |
| `TicTacToeChannel.TicTacToeIsMachine` | contracts/V1/AStateMachine.sol:55-90 | with these words any environment gets the game for its machine, and meets what the theorems on TicTacToe channels ask |
| `TicTacToeChannel.RunPlays` | examples/TicTacToe/contracts/TicTacToe/TicTacToeStateMachine.sol:39-131 | on any run of a client in a channel that starts with a game in progress, every state up to the first failed execution is a game in progress of the same two players with the same bet and the same total |
| `TicTacToeDisputes.DisputeSettles` | contracts/V1/StateChannelDiamondProxy/DisputeManagerFacet.sol:295-350 | settling a dispute over a game reverts exactly when a join is pending or both players are condemned; otherwise exactly the condemned player leaves |
| `TicTacToeDisputes.NewForkGame` | contracts/V1/StateChannelDiamondProxy/DisputeManagerFacet.sol:108-293 | after any accepted dispute or challenge over a game at most one player was condemned, the new fork holds the rest of the game, and exits plus balances are the total |
| `TicTacToe.Contract.Play` | examples/TicTacToe/contracts/TicTacToe/TicTacToeStateMachine.sol:39-75 | makeMove on the fields computes the rule, or reverts |
| `TicTacToe.Contract.ResetGame` | examples/TicTacToe/contracts/TicTacToe/TicTacToeStateMachine.sol:112-131 | the loops clear the board and change seats with their balances |
| `TicTacToe.Contract.Leave` | examples/TicTacToe/contracts/TicTacToe/TicTacToeStateMachine.sol:169-192 | the loop finds the player and removes it as the rule says |

## Left out

- `joinChannelWithAgreement`, `leaveChannelWithAgreement`, `tryProcessOldExits`, `openChannel`: a channel starts opened, and its exits are recorded but not paid.
- DisputeManagerFacet.DisputeManager.Post: a block of another channel changes nothing here, because the model holds the storage of one channel.
- `DisputeHandler.rechallengeRecursive`: its challenge number never matches the contract's; challenges are contract-level steps instead.
- Incorrect-data evidence built by the client for blocks after the first: its blocks are in the opposite order to the contract's; the immunity theorem uses the contract's order.
- `filterValidProofs` for kinds other than double sign and newer state.
- ECDSA, keccak, ABI encoding and EVM execution, with the difference between the signature formats the two libraries accept.
- JavaScript number precision, and the overflow of the chain time plus the challenge time.
- The evidence rules of the client pass over unreadable signatures, where its loops throw (`ProofManager.ReadParticipantSignature`): on a run all recorded signatures are readable (`ReplicaRuns.RunKeeps`).
- A query of the machine that reverts: only transitions, joins, slashes and removals can fail here.
- StateManager.Manager.CollectOnChainBlock: starting a dispute marks the fork; the call to the contract that follows is a step of its own.
- Transports, timers, events, hooks and the interleaving of steps finer than the mutex; the order in which queued blocks are taken out.
- The confirmation queue, which is never filled.
- StateManager.Manager.Perform: has no mutex; `ClientLock` says, on runs, which steps a client with a locked mutex still takes.
- Reverts inside a call: methods that return a failure leave fields in any state, and `Transact` restores them as the EVM does.
- MathStateMachine.Machine.Add: with no participants the writer is a parameter, because it is read from the last transaction.
- `Mutex` (a queue of waiters; here a step holds it from beginning to end), `set.ts` (union, intersection and difference, for which the language has operators), `retry` (repeats a failed promise after a delay; here a failed call is a step without effect, and repeating it another step), `SignatureCollectionMap` (collects the signatures of a join request before it is sent, which is before a channel starts here) and `ProfileManager` (finds a peer's transport by its address).
