/** Concrete runs on which a client that follows the protocol is slashed by whole calls of the contract, and a
    certificate for a state that no client ever had. */
module HonestClientExamples {
  import opened Types
  import opened Storage
  import opened StateChannelUtilLibrary
  import opened DisputeRules
  import DR = DisputeRuns
  import opened ReplicaRules
  import R = ReplicaRuns
  import opened JointRuns
  import JT = JointTheorems
  import C = Certificates
  import P = ProofManager
  import T = Timeouts
  import CD = ClientDisputes
  import H = HonestClient
  import opened Counterexamples

  /** The channel right after it was opened with state [0] at time 100, for a client that has seen it. */
  function Joint(chain: Chain, t: R.Tracked): World { World(chain, t, [([0], 0, 100)], []) }

  function Genesis(now: nat): Chain { DR.Opened(1, TIMES, 100, [0]).(now := now) }

  /** One more move. */
  lemma Step(c: Client, moves: seq<Move>, n: nat, before: World, after: World)
    requires n < |moves| && Run(c, Start(c, 100, [0], [0]), moves[..n]) == before && Next(c, before, moves[n]) == after
    ensures Run(c, Start(c, 100, [0], [0]), moves[..n + 1]) == after
  {
    JointRunTo(c, Start(c, 100, [0], [0]), moves, n, before, after);
  }

  /** One more call, and what it leaves of the world. */
  lemma Calls(c: Client, moves: seq<Move>, n: nat, before: World, tx: DR.Tx, after: Chain)
    requires n < |moves| && moves[n] == OnChain(tx) && DR.Execute(c.env, before.chain, tx) == Ok(after)
    requires Run(c, Start(c, 100, [0], [0]), moves[..n]) == before
    ensures var w := Run(c, Start(c, 100, [0], [0]), moves[..n + 1]); w.chain == after && w.client == before.client
  {
    Step(c, moves, n, before, Next(c, before, moves[n]));
  }

  /** One more step of the client alone. */
  lemma Acts(c: Client, moves: seq<Move>, n: nat, before: World, step: R.Step, after: R.Tracked)
    requires n < |moves| && moves[n] == Local(step) && Allowed(before, step) && R.Track(c, before.client, step) == after
    requires Run(c, Start(c, 100, [0], [0]), moves[..n]) == before
    ensures Run(c, Start(c, 100, [0], [0]), moves[..n + 1]) == before.(client := after)
  {
    Step(c, moves, n, before, before.(client := after));
  }

  lemma AloneOpened(participants: seq<Address>, moves: seq<Move>)
    requires |moves| >= 1 && moves[0] == Local(R.StateSet([0], 0, 100))
    ensures var c := Observer(8, participants);
            Run(c, Start(c, 100, [0], [0]), moves[..1]) == Joint(Genesis(100), AloneAfter(participants, 0))
  {
    var c := Observer(8, participants);
    AloneStarts(participants);
    assert moves[..0] == [];
    Step(c, moves, 0, Start(c, 100, [0], [0]), Joint(Genesis(100), AloneAfter(participants, 0)));
  }

  /** Participant 8 sees the channel open and plays its first block. */
  lemma AloneJoint(participants: seq<Address>, moves: seq<Move>)
    requires |moves| >= 2 && moves[0] == Local(R.StateSet([0], 0, 100)) && moves[1] == Local(R.Play([], 110))
    ensures var c := Observer(8, participants);
            Run(c, Start(c, 100, [0], [0]), moves[..2]) == Joint(Genesis(100), AloneAfter(participants, 1))
  {
    AloneOpened(participants, moves);
    AlonePlays(participants, 0);
    Acts(Observer(8, participants), moves, 1, Joint(Genesis(100), AloneAfter(participants, 0)), R.Play([], 110),
         AloneAfter(participants, 1));
  }

  // ---------- whole calls on the toggle machine ----------

  lemma {:induction false} NobodyLeaves(remove: (Bytes, Address) -> Outcome<Removal>, state: Bytes, gone: seq<Address>)
    requires forall words, a :: remove(words, a) == Ok(Removal(false, NO_EXIT, words))
    ensures ApplyRemovals(remove, state, gone) == Ok((state, []))
  {
    if gone != [] { NobodyLeaves(remove, state, gone[..|gone| - 1]); }
  }

  /** The toggle machine lets every dispute without joins and leaves be settled, and nobody leaves. */
  lemma SettlesToggle(participants: seq<Address>, d: Dispute)
    requires d.joins == [] && d.leaves == []
    ensures ApplyToLatestState(Toggle(participants), d) == Ok(d.(exits := []))
  {
    var env := Toggle(participants);
    SettlingIsTwoPasses(env, d);
    NobodyLeaves(env.slash, d.latestState, d.slashed);
    NobodyLeaves(env.remove, d.latestState, Folded(d));
    var none: seq<ProcessExit> := [];
    assert none + none == none;
  }

  function Settled(chain: Chain, d: Dispute): Chain { chain.(dispute := d.(exits := [])).WithState(d.latestState) }

  /** createDispute with one piece of evidence, or with a timeout and none. */
  lemma Creates(participants: seq<Address>, chain: Chain, sender: Address, best: C.Certificate, timedout: Address,
                proofs: seq<Proof>, applied: Applied)
    requires var env := Toggle(participants);
             && chain.dispute.channelId == 0 && chain.latestFork == 0 && sender in participants
             && FinalizedAndLatest(env, chain, 0, best.finalized, best.latest, best.votes, participants) == Ok(true)
             && TimeoutAccepted(env, chain, sender, 0, best.latest, best.votes, timedout, 0)
             && ApplyProofs(env, chain, sender, FreshDispute(chain, sender, 0, best.finalized, best.latest, best.votes,
                                                             timedout, 0, participants), proofs) == Ok(applied)
    requires applied.success || applied.dispute.timedout != ZERO_ADDRESS
    requires applied.dispute.joins == [] && applied.dispute.leaves == []
    ensures DR.Execute(Toggle(participants), chain, DR.Tx(sender, DR.Create(
              0, best.finalized, best.latest, best.votes, timedout, 0, proofs))) == Ok(Settled(chain, applied.dispute))
  {
    CD.CreateVerdict(Toggle(participants), chain, sender, 0, best, timedout, 0, proofs, true, true);
    SettlesToggle(participants, applied.dispute);
  }

  /** challengeDispute with one piece of evidence. */
  lemma Challenges(participants: seq<Address>, chain: Chain, sender: Address, best: C.Certificate, proof: Proof,
                   applied: Applied)
    requires var env, d := Toggle(participants), chain.dispute;
             && d.channelId != 0 && d.forkCnt == d.challengeCnt == 0 && d.deadlineTimestamp > chain.now
             && sender in d.participants && sender !in d.slashed
             && ApplyProof(env, chain, sender, d, proof) == Ok(applied)
             && applied.success && sender !in applied.dispute.slashed
             && Supersedes(env, chain, applied.dispute, best.votes, best.finalized, best.latest)
             && applied.dispute.joins == [] && applied.dispute.leaves == []
    ensures DR.Execute(Toggle(participants), chain, DR.Tx(sender, DR.Challenge(
              0, 0, [proof], best.votes, best.finalized, best.latest)))
         == Ok(Settled(chain, Challenged(chain, sender, applied.dispute, best.votes, best.finalized, best.latest)))
  {
    CD.OneProof(Toggle(participants), chain, sender, chain.dispute, proof);
    CD.ChallengeConcludes(Toggle(participants), chain, sender, [proof], best, applied);
    SettlesToggle(participants,
                  Challenged(chain, sender, applied.dispute, best.votes, best.finalized, best.latest));
  }

  // ---------- a late block ----------

  /** Participant 8's second block, played at `clock`. */
  function LateBlock(clock: nat): SignedBlock {
    SignedBlock(Block(Transaction(Header(1, 8, 0, 1, clock), []), 0, 1), 8)
  }

  function LateAfter(clock: nat): R.Tracked {
    var f := AloneFork([7, 8], 1);
    var late := Agreement(LateBlock(clock).block, [8], [0]);
    R.Tracked(Replica([f.(agreements := f.agreements + [late])], map[], {}, [0]), map[])
  }

  lemma PlaysLate(clock: nat)
    requires 110 <= clock
    ensures R.Track(Observer(8, [7, 8]), AloneAfter([7, 8], 1), R.Play([], clock)) == LateAfter(clock)
  {
    var c, before := Observer(8, [7, 8]), AloneAfter([7, 8], 1);
    assert OwnTransaction(c, before.replica, [], clock) == LateBlock(clock).block.transaction;
    assert OwnBlock(c, before.replica, [], clock) == LateBlock(clock).block;
  }

  function LateEvidence(clock: nat): DR.Tx {
    DR.Tx(7, DR.Create(0, [0], [0], [], ZERO_ADDRESS, 0, [Proof.IncorrectData(ToggleBlock(0), LateBlock(clock), [1])]))
  }

  lemma LateIsPunished(env: Env, d: Dispute, clock: nat)
    requires env == Toggle([7, 8]) && d.channelId == 1 && d.forkCnt == 0 && 120 < clock
    requires d.slashed == [] && d.foldedTransactionCnt == 0
    ensures var applied := ApplyIncorrectData(env, Genesis(clock), d, ToggleBlock(0), LateBlock(clock), [1]);
            applied == Ok(Applied(d.(slashed := [8]), true))
  {
    var chain, late := Genesis(clock), LateBlock(clock);
    assert chain.LatestPosted(0, 1) == 0;
    JT.CorrectBlockVerdict(env, chain, d, ToggleBlock(0), late, [1]);
    JT.TimeVerdict(chain, 110, late.block);
    assert d.slashed + [8] == [8];
  }

  lemma LateEvidenceSucceeds(clock: nat)
    requires 120 < clock
    ensures var after := DR.Execute(Toggle([7, 8]), Genesis(clock), LateEvidence(clock));
            after.Ok? && after.value.dispute.slashed == [8]
  {
    var env, chain, proof := Toggle([7, 8]), Genesis(clock), Proof.IncorrectData(ToggleBlock(0), LateBlock(clock), [1]);
    var best: C.Certificate := C.Certificate([0], [0], []);
    var d := FreshDispute(chain, 7, 0, [0], [0], [], ZERO_ADDRESS, 0, [7, 8]);
    LateIsPunished(env, d, clock);
    CD.OneProof(env, chain, 7, d, proof);
    var applied := ApplyIncorrectData(env, chain, d, ToggleBlock(0), LateBlock(clock), [1]).value;
    Creates([7, 8], chain, 7, best, ZERO_ADDRESS, [proof], applied);
  }

  function LateRun(clock: nat): seq<Move>
    requires 120 < clock
  {
    [Local(R.StateSet([0], 0, 100)), Local(R.Play([], 110)), Local(R.Play([], clock)),
     OnChain(DR.Tx(7, DR.Tick(clock - 100))),
     OnChain(LateEvidence(clock))]
  }

  /** The client's part of the run: both blocks are appended. */
  lemma LatePlayed(clock: nat)
    requires 120 < clock
    ensures Run(Observer(8, [7, 8]), Start(Observer(8, [7, 8]), 100, [0], [0]), LateRun(clock)[..3])
         == Joint(Genesis(100), LateAfter(clock))
  {
    var c, moves := Observer(8, [7, 8]), LateRun(clock);
    AloneJoint([7, 8], moves);
    PlaysLate(clock);
    Acts(c, moves, 2, Joint(Genesis(100), AloneAfter([7, 8], 1)), R.Play([], clock), LateAfter(clock));
  }

  /** Participant 8 plays one block in time and the next one late: its own client appends both, and a call by 7 gets it
      slashed for the second. */
  lemma OwnBlockSlashed(clock: nat)
    requires 120 < clock
    ensures var c := Observer(8, [7, 8]);
            var w := Run(c, Start(c, 100, [0], [0]), LateRun(clock));
            && H.Records(c, w.client.replica, LateBlock(clock).block)
            && w.chain.dispute.slashed == [8]
  {
    var c, moves := Observer(8, [7, 8]), LateRun(clock);
    LatePlayed(clock);
    var ticked := Joint(Genesis(clock), LateAfter(clock));
    Step(c, moves, 3, Joint(Genesis(100), LateAfter(clock)), ticked);
    LateEvidenceSucceeds(clock);
    Calls(c, moves, 4, ticked, LateEvidence(clock),
          DR.Execute(c.env, Genesis(clock), LateEvidence(clock)).value);
    assert moves[..5] == moves;
    assert 8 in LateAfter(clock).replica.AgreementAt(0, 1).signatures;
  }

  // ---------- the last vote of one's own dispute ----------

  /** A block by participant 9 that is ahead of the chain's clock. */
  const EARLY := SignedBlock(Block(Transaction(Header(1, 9, 0, 0, 1000), []), 1, 0), 9)

  /** Participant 8's certificate on its own first block. */
  const OWN_VOTE := C.Certificate([0], [1], [ConfirmedBlock(ToggleBlock(0).block, [8])])

  lemma OwnCertificate()
    ensures C.BestCertificate(Toggle([7, 8, 9]), AloneFork([7, 8, 9], 1), 8) == OWN_VOTE
  {
    var env, f := Toggle([7, 8, 9]), AloneFork([7, 8, 9], 1);
    assert 8 in f.agreements[0].signatures && C.SignedBy(env, f.agreements[0], 8);
    assert !C.SignedBy(env, f.agreements[0], 7);
    assert 7 in f.threshold && !C.Covers(env, f, 0, 0);
    assert f.agreements[..1] == f.agreements;
    assert C.Votes(f.agreements) == OWN_VOTE.votes;
  }

  lemma OwnVoteIsAccepted(chain: Chain)
    requires chain.channelId == 1 && chain.StateOf(0) == [0]
    ensures FinalizedAndLatest(Toggle([7, 8, 9]), chain, 0, [0], [1], OWN_VOTE.votes, [7, 8, 9]) == Ok(true)
  {
    CD.SelfSignedIsAccepted(Toggle([7, 8, 9]), chain, 0, ToggleBlock(0).block, 8, [1], [7, 8, 9]);
  }

  function EarlyEvidence(): DR.Tx {
    DR.Tx(8, DR.Create(0, [0], [1], OWN_VOTE.votes, ZERO_ADDRESS, 0, [BlockTooFarInFuture(EARLY)]))
  }

  function OwnVoteEvidence(): DR.Tx {
    DR.Tx(7, DR.Challenge(0, 0, [NewerState(ToggleBlock(0).block, 8)], OWN_VOTE.votes, [0], [1]))
  }

  /** The dispute that 8 opens against 9. */
  function Disputed(): Dispute {
    FreshDispute(Genesis(110), 8, 0, [0], [1], OWN_VOTE.votes, ZERO_ADDRESS, 0, [7, 8, 9]).(slashed := [9])
  }

  lemma EarlyEvidenceSucceeds()
    ensures DR.Execute(Toggle([7, 8, 9]), Genesis(110), EarlyEvidence()) == Ok(Settled(Genesis(110), Disputed()))
  {
    var env, chain, d := Toggle([7, 8, 9]), Genesis(110), Disputed().(slashed := []);
    assert ApplyBlockTooFarInFuture(env, chain, d, EARLY)
           == Ok(Applied(Disputed(), true)) by { assert d.slashed + [9] == [9]; }
    CD.OneProof(env, chain, 8, d, BlockTooFarInFuture(EARLY));
    OwnVoteIsAccepted(chain);
    Creates([7, 8, 9], chain, 8, OWN_VOTE, ZERO_ADDRESS, [BlockTooFarInFuture(EARLY)], Applied(Disputed(), true));
  }

  lemma OwnVoteEvidenceSucceeds()
    ensures var after := DR.Execute(Toggle([7, 8, 9]), Settled(Genesis(110), Disputed()), OwnVoteEvidence());
            after.Ok? && after.value.dispute.slashed == [9, 8]
  {
    var env, chain, proof := Toggle([7, 8, 9]), Settled(Genesis(110), Disputed()), NewerState(ToggleBlock(0).block, 8);
    var applied := Applied(chain.dispute.(slashed := [9, 8]), true);
    assert ApplyProof(env, chain, 7, chain.dispute, proof) == Ok(applied) by { assert [9] + [8] == [9, 8]; }
    OwnVoteIsAccepted(chain);
    Challenges([7, 8, 9], chain, 7, OWN_VOTE, proof, applied);
  }

  function OwnVoteRun(): seq<Move> {
    [Local(R.StateSet([0], 0, 100)), Local(R.Play([], 110)), OnChain(DR.Tx(7, DR.Tick(10))), OnChain(EarlyEvidence()),
     OnChain(OwnVoteEvidence())]
  }

  lemma OwnVotePlayed()
    ensures var c := Observer(8, [7, 8, 9]);
            Run(c, Start(c, 100, [0], [0]), OwnVoteRun()[..3]) == Joint(Genesis(110), AloneAfter([7, 8, 9], 1))
  {
    var c, moves, t := Observer(8, [7, 8, 9]), OwnVoteRun(), AloneAfter([7, 8, 9], 1);
    AloneJoint([7, 8, 9], moves);
    Step(c, moves, 2, Joint(Genesis(100), t), Joint(Genesis(110), t));
  }

  /** Participant 8 plays one block and disputes a block by 9, on its own certificate. The dispute is accepted; a
      challenge by 7 that repeats the certificate's only vote gets 8 slashed too. */
  lemma OwnVoteSlashes()
    ensures var c, moves := Observer(8, [7, 8, 9]), OwnVoteRun();
            var start := Start(c, 100, [0], [0]);
            && Run(c, start, moves[..3]).client.replica.forks == [AloneFork([7, 8, 9], 1)]
            && C.BestCertificate(c.env, AloneFork([7, 8, 9], 1), 8) == OWN_VOTE
            && Run(c, start, moves[..4]).chain.dispute.slashed == [9]
            && Run(c, start, moves).chain.dispute.slashed == [9, 8]
  {
    var c, moves := Observer(8, [7, 8, 9]), OwnVoteRun();
    OwnVotePlayed();
    OwnCertificate();
    EarlyEvidenceSucceeds();
    Calls(c, moves, 3, Joint(Genesis(110), AloneAfter([7, 8, 9], 1)), EarlyEvidence(),
          Settled(Genesis(110), Disputed()));
    var disputed := Run(c, Start(c, 100, [0], [0]), moves[..4]);
    OwnVoteEvidenceSucceeds();
    Calls(c, moves, 4, disputed, OwnVoteEvidence(), DR.Execute(c.env, disputed.chain, OwnVoteEvidence()).value);
    assert moves[..5] == moves;
  }

  // ---------- a timeout at height 0 after a delay ----------

  const BOTH := ConfirmedBlock(ToggleBlock(0).block, [8, 7])

  /** Participant 7's certificate on block 0, which both have signed. */
  const CONFIRMED := C.Certificate([1], [1], [BOTH])

  function TimeoutClaim(): DR.Tx { DR.Tx(7, DR.Create(0, [1], [1], [BOTH], 8, 0, [])) }

  function TimeoutEvidence(): DR.Tx {
    DR.Tx(8, DR.Challenge(0, 0, [FoldRechallenge(BOTH.block, BOTH.signatures)], [BOTH], [1], [1]))
  }

  function Claim(): Dispute { FreshDispute(Genesis(112), 7, 0, [1], [1], [BOTH], 8, 0, [7, 8]) }

  lemma ConfirmedIsAccepted(chain: Chain)
    requires chain.channelId == 1 && chain.StateOf(0) == [0]
    ensures FinalizedAndLatest(Toggle([7, 8]), chain, 0, [1], [1], [BOTH], [7, 8]) == Ok(true)
  {
    var env, votes := Toggle([7, 8]), [BOTH];
    assert 8 in BOTH.signatures && 7 in BOTH.signatures && BOTH in votes;
    assert env.Signs(BOTH.block, BOTH.signatures, 7) && env.Signs(BOTH.block, BOTH.signatures, 8);
    assert WellSigned(env, 1, 0, votes[0]) && Linked(env, false, [1], [1], votes, 0);
    assert Voters(env, votes, [7, 8]) == {7, 8};
  }

  lemma ClaimSucceeds()
    ensures DR.Execute(Toggle([7, 8]), Genesis(112), TimeoutClaim()) == Ok(Settled(Genesis(112), Claim()))
  {
    var env, chain := Toggle([7, 8]), Genesis(112);
    ConfirmedIsAccepted(chain);
    assert TimeoutAccepted(env, chain, 7, 0, [1], [BOTH], 8, 0);
    assert ApplyProofs(env, chain, 7, Claim(), []) == Ok(Applied(Claim(), false));
    Creates([7, 8], chain, 7, CONFIRMED, 8, [], Applied(Claim(), false));
  }

  lemma BothAreEveryone()
    ensures var env := Toggle([7, 8]);
            ThresholdSigned(env, [7, 8], env.blockHash(BOTH.block), BOTH.signatures) == Ok(true)
  {
    var env := Toggle([7, 8]);
    assert 8 in BOTH.signatures && 7 in BOTH.signatures && env.AllRecover(BOTH.block, BOTH.signatures);
    assert env.Signs(BOTH.block, BOTH.signatures, 7) && env.Signs(BOTH.block, BOTH.signatures, 8);
    P.EveryoneIsThreshold(env, BOTH.block, BOTH.signatures, [7, 8]);
  }

  lemma FoldIsUndone(d: Dispute)
    requires d.channelId == 1 && d.forkCnt == 0 && d.foldedTransactionCnt == 0 && d.participants == [7, 8]
    requires d.slashed == [] && d.timeoutDisputer == 7
    ensures ApplyFoldRechallenge(Toggle([7, 8]), d, BOTH.block, BOTH.signatures)
         == Ok(Applied(d.(timedout := ZERO_ADDRESS, slashed := [7]), true))
  {
    BothAreEveryone();
    assert d.slashed + [7] == [7];
  }

  lemma TimeoutEvidenceSucceeds()
    ensures var after := DR.Execute(Toggle([7, 8]), Settled(Genesis(112), Claim()), TimeoutEvidence());
            after.Ok? && after.value.dispute.slashed == [7]
  {
    var chain := Settled(Genesis(112), Claim());
    var applied := Applied(chain.dispute.(timedout := ZERO_ADDRESS, slashed := [7]), true);
    FoldIsUndone(chain.dispute);
    ConfirmedIsAccepted(chain);
    Challenges([7, 8], chain, 8, CONFIRMED, FoldRechallenge(BOTH.block, BOTH.signatures), applied);
  }

  function DelayedRun(): seq<Move> {
    [Local(R.StateSet([0], 0, 100)), Arrives(0), OnChain(DR.Tx(8, DR.Tick(12))), OnChain(TimeoutClaim()),
     OnChain(TimeoutEvidence())]
  }

  lemma DelayIsUp()
    ensures var c, fired := Observer(7, [7, 8]), Joint(Genesis(112), WatchedAfter(1).client);
            && T.TryTimeout(c, WatchedAfter(0).client.replica, 0, 0, 8, 105, false) == T.Later(7)
            && T.PutOff(c, WatchedAfter(0), 0, 0, 8, 105, false, fired)
            && T.StillHolds(c, fired.chain, WatchedFork(1), 0, 8, 0)
  {}

  /** The client's part of the run: the block arrives during the delay. */
  lemma DelayPassed()
    ensures var c := Observer(7, [7, 8]);
            var start := Start(c, 100, [0], [0]);
            && Run(c, start, DelayedRun()[..1]) == WatchedAfter(0)
            && Run(c, start, DelayedRun()[..3]) == Joint(Genesis(112), WatchedAfter(1).client)
  {
    var c, moves := Observer(7, [7, 8]), DelayedRun();
    assert moves[..1] == Watched()[..1] && moves[..2] == Watched()[..2];
    WatchedRun(0);
    WatchedRun(1);
    Step(c, moves, 2, WatchedAfter(1), Joint(Genesis(112), WatchedAfter(1).client));
  }

  lemma TimeoutClaimed()
    ensures var c := Observer(7, [7, 8]);
            Run(c, Start(c, 100, [0], [0]), DelayedRun()[..4]).chain == Settled(Genesis(112), Claim())
  {
    DelayPassed();
    ClaimSucceeds();
    Calls(Observer(7, [7, 8]), DelayedRun(), 3, Joint(Genesis(112), WatchedAfter(1).client), TimeoutClaim(),
          Settled(Genesis(112), Claim()));
  }

  lemma TimeoutPunished()
    ensures var c := Observer(7, [7, 8]); Run(c, Start(c, 100, [0], [0]), DelayedRun()).chain.dispute.slashed == [7]
  {
    var c, moves := Observer(7, [7, 8]), DelayedRun();
    TimeoutClaimed();
    TimeoutEvidenceSucceeds();
    var claimed := Run(c, Start(c, 100, [0], [0]), moves[..4]);
    Calls(c, moves, 4, claimed, TimeoutEvidence(), DR.Execute(c.env, claimed.chain, TimeoutEvidence()).value);
    assert moves[..5] == moves;
  }

  /** Participant 7 checks at time 105 whether 8 has timed out at height 0, and puts the dispute off by 7 seconds. In
      between 8 plays and 7 confirms the block. The dispute is still accepted, because on this machine it is 8's turn
      again, and the block that 7 has confirmed itself gets 7 slashed. */
  lemma DelayedTimeoutPunished()
    ensures var c, moves := Observer(7, [7, 8]), DelayedRun();
            var start := Start(c, 100, [0], [0]);
            var fired := Run(c, start, moves[..3]);
            && Run(c, start, moves[..1]) == WatchedAfter(0)
            && T.PutOff(c, WatchedAfter(0), 0, 0, 8, 105, false, fired)
            && fired.client == WatchedAfter(1).client && T.StillHolds(c, fired.chain, WatchedFork(1), 0, 8, 0)
            && Run(c, start, moves[..4]).chain.dispute.timeoutDisputer == 7
            && Run(c, start, moves).chain.dispute.slashed == [7]
  {
    DelayPassed();
    DelayIsUp();
    TimeoutClaimed();
    TimeoutPunished();
  }

  // ---------- a finalized state that is nobody's ----------

  /** Two blocks signed by 8 alone lead from the hash of [5] to the state on which the first block of the channel was
      played. */
  function Pretended(): seq<ConfirmedBlock> {
    [ConfirmedBlock(Block(Transaction(Header(1, 8, 0, 0, 0), []), 5, 4), [8]),
     ConfirmedBlock(Block(Transaction(Header(1, 8, 0, 0, 0), []), 0, 5), [8]),
     BOTH]
  }

  /** In front of one genuine vote they make [5] an accepted finalized state. */
  lemma FinalizedIsNobodys()
    ensures FinalizedAndLatest(Toggle([7, 8]), Genesis(100), 0, [5], [1], Pretended(), [7, 8]) == Ok(true)
    ensures !Genesis(100).IsGenesisState(Toggle([7, 8]), 0, [5])
  {
    var env, votes := Toggle([7, 8]), Pretended();
    forall i | 0 <= i < 3 ensures WellSigned(env, 1, 0, votes[i]) && Linked(env, false, [5], [1], votes, i) {
      assert 8 in votes[i].signatures;
    }
    assert 7 in BOTH.signatures && BOTH == votes[2];
    assert env.Signs(BOTH.block, BOTH.signatures, 7)
           && env.Signs(BOTH.block, BOTH.signatures, 8) by { assert 8 in BOTH.signatures; }
    assert Voters(env, votes, [7, 8]) == {7, 8};
  }
}
