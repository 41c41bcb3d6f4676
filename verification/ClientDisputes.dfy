/** The client's calls to the contract: createDispute and challengeDispute on its best certificate. */
module ClientDisputes {
  import opened Types
  import opened Storage
  import D = DisputeRules
  import DR = DisputeRuns
  import opened ReplicaRules
  import R = ReplicaRuns
  import opened JointRuns
  import JT = JointTheorems
  import C = Certificates
  import P = ProofManager
  import A = AccountableSafety
  import opened Timeouts

  // ---------- createDispute ----------

  /** The contract neither misreads the client's certificate nor counts too few voters. */
  predicate Certified(env: Env, f: Fork, me: Address) {
    !C.LooksLikeGenesis(env, f, me) && (C.OnGenesis(env, f, me) || Distinct(f.threshold))
  }

  /** DisputeHandler.createDispute, as far as the contract. */
  function Call(c: Client, chain: Chain, f: Fork, fork: nat, timedout: Address, height: nat, proofs: seq<D.Proof>)
    : Outcome<Chain>
  {
    var best := C.BestCertificate(c.env, f, c.me);
    D.CreateDispute(c.env, chain, c.me, fork, best.finalized, best.latest, best.votes, timedout, height, proofs)
  }

  /** The dispute such a call stores, before its evidence. */
  function Stored(c: Client, chain: Chain, f: Fork, fork: nat, timedout: Address, height: nat): Dispute {
    var best := C.BestCertificate(c.env, f, c.me);
    D.FreshDispute(chain, c.me, fork, best.finalized, best.latest, best.votes, timedout, height,
                   c.env.participants(chain.StateOf(fork)))
  }

  predicate MayDispute(c: Client, chain: Chain, f: Fork, fork: nat, timedout: Address, height: nat) {
    && (chain.dispute.channelId == 0 || chain.dispute.deadlineTimestamp < chain.now) && chain.latestFork == fork
    && c.me in f.threshold && Certified(c.env, f, c.me)
    && (timedout != ZERO_ADDRESS ==> ClaimHolds(c.env, chain, f, c.me, fork, timedout, height))
  }

  /** The whole call, given the verdicts on its certificate and on its timeout. */
  lemma CreateVerdict(env: Env, chain: Chain, sender: Address, fork: nat, best: C.Certificate, timedout: Address,
                      height: nat, proofs: seq<D.Proof>, certified: bool, claimed: bool)
    requires var participants := env.participants(chain.StateOf(fork));
             certified <==> D.FinalizedAndLatest(env, chain, fork, best.finalized, best.latest, best.votes,
                                                 participants)
                            == Ok(true)
    requires claimed <==> D.TimeoutAccepted(env, chain, sender, fork, best.latest, best.votes, timedout, height)
    ensures var participants := env.participants(chain.StateOf(fork));
            var d := D.FreshDispute(chain, sender, fork, best.finalized, best.latest, best.votes, timedout, height,
                                    participants);
            D.CreateDispute(env, chain, sender, fork, best.finalized, best.latest, best.votes, timedout, height,
                            proofs) ==
            if (chain.dispute.channelId == 0 || chain.dispute.deadlineTimestamp < chain.now)
               && chain.latestFork == fork && sender in participants && certified && claimed
            then D.BeginDispute(env, chain, sender, d, proofs) else Revert
  {}

  /** On any joint run, up to the fork's first failed execution, this is all that decides about the client's call. */
  lemma CallVerdict(c: Client, w: World, fork: nat, timedout: Address, height: nat, proofs: seq<D.Proof>)
    requires Invariant(c, w) && fork < |w.client.replica.forks|
    requires |w.client.replica.forks[fork].agreements| <= w.client.Sound(fork)
    ensures var f := w.client.replica.forks[fork];
            Call(c, w.chain, f, fork, timedout, height, proofs) ==
            if MayDispute(c, w.chain, f, fork, timedout, height)
            then D.BeginDispute(c.env, w.chain, c.me, Stored(c, w.chain, f, fork, timedout, height), proofs) else Revert
  {
    var f := w.client.replica.forks[fork];
    var claimed := timedout != ZERO_ADDRESS ==> ClaimHolds(c.env, w.chain, f, c.me, fork, timedout, height);
    JT.CertificateVerdict(c, w, fork, c.me);
    if timedout != ZERO_ADDRESS { TimeoutVerdict(c, w, fork, timedout, height); }
    ThresholdIsStored(c, w, fork);
    CreateVerdict(c.env, w.chain, c.me, fork, C.BestCertificate(c.env, f, c.me), timedout, height, proofs,
                  Certified(c.env, f, c.me), claimed);
  }

  lemma ThresholdIsStored(c: Client, w: World, fork: nat)
    requires Invariant(c, w) && fork < |w.client.replica.forks|
    ensures w.client.replica.forks[fork].threshold == c.env.participants(w.chain.StateOf(fork))
  {
    var f := w.client.replica.forks[fork];
    assert R.ForkSound(c, f, fork, w.client.Sound(fork)) && ForkMirrors(w.chain, fork, f);
  }

  /** A call that claims a timeout, without evidence. */
  lemma TimeoutCallVerdict(c: Client, w: World, fork: nat, participant: Address, height: nat)
    requires Invariant(c, w) && fork < |w.client.replica.forks| && participant != ZERO_ADDRESS
    requires |w.client.replica.forks[fork].agreements| <= w.client.Sound(fork)
    ensures var f := w.client.replica.forks[fork];
            var created := Call(c, w.chain, f, fork, participant, height, []);
            && (created.Ok? <==>
                  && MayDispute(c, w.chain, f, fork, participant, height)
                  && c.me !in w.chain.dispute.slashed
                  && D.ApplyToLatestState(c.env, Stored(c, w.chain, f, fork, participant, height)).Ok?)
            && (created.Ok? ==>
                  && created.value.dispute.timedout == participant
                  && created.value.dispute.timeoutDisputer == created.value.dispute.postedStateDisputer == c.me
                  && created.value.dispute.slashed == w.chain.dispute.slashed
                  && created.value.latestFork == fork + 1)
  {
    CallVerdict(c, w, fork, participant, height, []);
  }

  /** The whole call, on any joint run. No dispute is in progress, the fork is the contract's latest, the client is
      a participant that was never slashed, and its certificate is one the contract does not misread: then a timeout
      fired at once makes createDispute succeed and name the participant, unless the state machine refuses to be
      settled. */
  lemma TimeoutDisputeSucceeds(c: Client, w: World, moves: seq<Move>, fork: nat, height: nat, participant: Address,
                               clock: nat)
    requires c.OwnsSigner() && Invariant(c, w)
    requires w.client.replica.forks != [] && fork == w.client.replica.LatestFork() && fork !in w.client.derailed
    requires height == w.client.replica.NextHeight() && participant == c.env.nextToWrite(w.client.replica.machine)
    requires ReadyToTimeout(c, Run(c, w, moves), fork, height, participant, clock)
    requires var later := Run(c, w, moves);
             var f := later.client.replica.forks[fork];
             && (later.chain.dispute.channelId == 0 || later.chain.dispute.deadlineTimestamp < later.chain.now)
             && later.chain.latestFork == fork
             && c.me in f.threshold && c.me !in later.chain.dispute.slashed && Certified(c.env, f, c.me)
    ensures var later := Run(c, w, moves);
            var f := later.client.replica.forks[fork];
            var created := Call(c, later.chain, f, fork, participant, height, []);
            && (created.Ok? <==> D.ApplyToLatestState(c.env, Stored(c, later.chain, f, fork, participant, height)).Ok?)
            && (created.Ok? ==>
                  && created.value.dispute.timedout == participant
                  && created.value.dispute.timeoutDisputer == created.value.dispute.postedStateDisputer == c.me
                  && created.value.latestFork == fork + 1)
  {
    RunKeeps(c, w, moves);
    TimeoutIsAccepted(c, w, moves, fork, height, participant, clock);
    NothingHappened(c, w, moves, fork, height);
    JT.SoundGrows(c, w, moves, fork);
    TimeoutVerdict(c, Run(c, w, moves), fork, participant, height);
    TimeoutCallVerdict(c, Run(c, w, moves), fork, participant, height);
  }

  /** One piece of evidence alone. */
  lemma OneProof(env: Env, chain: Chain, sender: Address, d: Dispute, proof: D.Proof)
    ensures D.ApplyProofs(env, chain, sender, d, [proof]) ==
            match D.ApplyProof(env, chain, sender, d, proof)
            case Revert => Revert
            case Ok(applied) => if sender in applied.dispute.slashed then Revert else Ok(applied)
  {
    var proofs := [proof];
    assert proofs[..0] == [];
    assert D.ApplyEach(env, chain, sender, d, []) == Ok(D.Applied(d, false));
  }

  /** The evidence of one convicting pair, in a dispute that is just being opened. */
  lemma PairApplied(env: Env, chain: Chain, sender: Address, d: Dispute, pair: (SignedBlock, SignedBlock), a: Address)
    requires A.Convicts(env, d.channelId, d.forkCnt, pair.0, pair.1, a) && d.foldedTransactionCnt == 0
    ensures D.ApplyProofs(env, chain, sender, d, [D.DoubleSign([pair])]) ==
            var after := if a in d.slashed then d else d.(slashed := d.slashed + [a]);
            if sender in after.slashed then Revert else Ok(D.Applied(after, a !in d.slashed))
  {
    assert [pair][..0] == [];
    assert D.ApplyDoubleSign(env, d, []) == Ok(D.Applied(d, false));
    assert D.ApplyDoubleSign(env, d, [pair]) == Ok(D.Slash(d, a));
    OneProof(env, chain, sender, d, D.DoubleSign([pair]));
  }

  lemma PairJudged(env: Env, chain: Chain, sender: Address, d: Dispute, pair: (SignedBlock, SignedBlock), a: Address)
    requires A.Convicts(env, d.channelId, d.forkCnt, pair.0, pair.1, a) && a != sender
    requires d.foldedTransactionCnt == 0 && d.timedout == ZERO_ADDRESS
    ensures var created := D.BeginDispute(env, chain, sender, d, [D.DoubleSign([pair])]);
            && (created.Ok? <==>
                  && a !in d.slashed && sender !in d.slashed
                  && D.ApplyToLatestState(env, d.(slashed := d.slashed + [a])).Ok?)
            && (created.Ok? ==>
                  && created.value.dispute.slashed == d.slashed + [a]
                  && created.value.dispute.postedStateDisputer == d.postedStateDisputer
                  && created.value.latestFork == chain.latestFork + 1)
  {
    PairApplied(env, chain, sender, d, pair, a);
    if D.ApplyToLatestState(env, d.(slashed := d.slashed + [a])).Ok? {
      DR.SettlingKeeps(env, d.(slashed := d.slashed + [a]));
    }
  }

  /** What the client flags as a double sign it can prove. */
  lemma FlaggedPair(c: Client, w: World, signed: SignedBlock) returns (pair: (SignedBlock, SignedBlock))
    requires Invariant(c, w) && signed.block.ChannelOf() == c.channelId
    requires Check(c.env, w.client.replica, signed) == Some(AgreementFlag.DoubleSign)
    requires c.env.blockHash(signed.block)
          != c.env.blockHash(w.client.replica.AgreementAt(signed.block.Fork(), signed.block.Height()).block)
    ensures P.CreateDoubleSignProof(c.env, w.client.replica, [signed]) == D.DoubleSign([pair])
    ensures A.Convicts(c.env, c.channelId, signed.block.Fork(), pair.0, pair.1, signed.block.Author())
  {
    var r, fork := w.client.replica, signed.block.Fork();
    assert R.ForkSound(c, r.forks[fork], fork, w.client.Sound(fork));
    assert R.Authenticated(c, fork, signed.block.Height(), r.AgreementAt(fork, signed.block.Height()));
    P.ExistingConvicts(c, r, signed);
    P.OnePair(c.env, r, signed);
    pair := (signed, P.DoubleSignedBlock(c.env, r, signed).value);
  }

  /** DisputeHandler.disputeDoubleSign: the whole call on whatever the client flags as a double sign of somebody else.
      It succeeds, and slashes the author, exactly when the client may dispute, neither it nor the author was slashed
      before, and the state machine can be settled without the author. */
  lemma DoubleSignCallVerdict(c: Client, w: World, signed: SignedBlock)
    requires Invariant(c, w) && signed.block.ChannelOf() == c.channelId && signed.block.Author() != c.me
    requires Check(c.env, w.client.replica, signed) == Some(AgreementFlag.DoubleSign)
    requires var r := w.client.replica;
             && |r.forks[signed.block.Fork()].agreements| <= w.client.Sound(signed.block.Fork())
             && c.env.blockHash(signed.block)
                != c.env.blockHash(r.AgreementAt(signed.block.Fork(), signed.block.Height()).block)
    ensures var fork, a := signed.block.Fork(), signed.block.Author();
            var f := w.client.replica.forks[fork];
            var stored := Stored(c, w.chain, f, fork, ZERO_ADDRESS, 0);
            var created := Call(c, w.chain, f, fork, ZERO_ADDRESS, 0,
                                [P.CreateDoubleSignProof(c.env, w.client.replica, [signed])]);
            && (created.Ok? <==>
                  && MayDispute(c, w.chain, f, fork, ZERO_ADDRESS, 0)
                  && a !in w.chain.dispute.slashed && c.me !in w.chain.dispute.slashed
                  && D.ApplyToLatestState(c.env, stored.(slashed := stored.slashed + [a])).Ok?)
            && (created.Ok? ==>
                  && created.value.dispute.slashed == w.chain.dispute.slashed + [a]
                  && created.value.dispute.postedStateDisputer == c.me && created.value.latestFork == fork + 1)
  {
    var fork := signed.block.Fork();
    var pair := FlaggedPair(c, w, signed);
    var stored := Stored(c, w.chain, w.client.replica.forks[fork], fork, ZERO_ADDRESS, 0);
    PairJudged(c.env, w.chain, c.me, stored, pair, signed.block.Author());
    CallVerdict(c, w, fork, ZERO_ADDRESS, 0, [D.DoubleSign([pair])]);
  }

  // ---------- challengeDispute ----------

  /** The height at which the client's certificate begins. */
  function FirstHeight(env: Env, f: Fork): nat
    requires f.agreements != []
  {
    var m := |f.agreements| - 1;
    var k := C.FinalityIndex(env, f, m, m);
    if k < 0 then 0 else k
  }

  lemma CertificateBegins(c: Client, chain: Chain, f: Fork, fork: nat)
    requires InOrder(c, chain, f, fork)
    ensures var best := C.BestCertificate(c.env, f, c.me);
            && (best.votes == [] <==> f.agreements == [])
            && (f.agreements != [] ==> best.votes[0].block.Height() == FirstHeight(c.env, f) < |f.agreements|)
  {}

  /** On any joint run, up to the fork's first failed execution, the client's certificate supersedes a dispute over the
      fork exactly when the contract accepts it, both sides have votes, and it begins no lower than the first vote
      ever posted. */
  lemma ChallengeVerdict(c: Client, w: World, fork: nat, d: Dispute)
    requires Invariant(c, w) && fork < |w.client.replica.forks|
    requires |w.client.replica.forks[fork].agreements| <= w.client.Sound(fork)
    requires d.forkCnt == fork && d.participants == c.env.participants(w.chain.StateOf(fork))
    ensures var f := w.client.replica.forks[fork];
            var best := C.BestCertificate(c.env, f, c.me);
            D.Supersedes(c.env, w.chain, d, best.votes, best.finalized, best.latest) <==>
            && Certified(c.env, f, c.me)
            && d.votes != [] && f.agreements != []
            && FirstHeight(c.env, f) >= d.votes[0].block.Height()
  {
    JT.CertificateVerdict(c, w, fork, c.me);
    ForkIsInOrder(c, w, fork);
    CertificateBegins(c, w.chain, w.client.replica.forks[fork], fork);
  }

  /** The whole challenge, given its evidence and its certificate. */
  lemma ChallengeConcludes(env: Env, chain: Chain, sender: Address, proofs: seq<D.Proof>, best: C.Certificate,
                           applied: D.Applied)
    requires var d := chain.dispute;
             && d.channelId != 0 && d.deadlineTimestamp > chain.now
             && sender in d.participants && sender !in d.slashed
             && D.ApplyProofs(env, chain, sender, d, proofs) == Ok(applied) && applied.success
             && D.Supersedes(env, chain, applied.dispute, best.votes, best.finalized, best.latest)
    ensures var d := chain.dispute;
            var challenged := D.Challenged(chain, sender, applied.dispute, best.votes, best.finalized, best.latest);
            D.ChallengeDispute(env, chain, sender, d.forkCnt, d.challengeCnt, proofs, best.votes, best.finalized,
                               best.latest) ==
            match D.ApplyToLatestState(env, challenged)
            case Revert => Revert
            case Ok(settled) => Ok(chain.(dispute := settled).WithState(settled.latestState))
  {}

  /** A dispute whose first vote is at or above the number of blocks the client has: no challenge on the client's
      certificate succeeds, whatever its evidence. */
  lemma HighVoteStands(c: Client, w: World, fork: nat, challengeCnt: nat, proofs: seq<D.Proof>)
    requires Invariant(c, w) && fork < |w.client.replica.forks|
    requires var votes := w.chain.dispute.votes;
             votes != [] && votes[0].block.Height() >= |w.client.replica.forks[fork].agreements|
    ensures var best := C.BestCertificate(c.env, w.client.replica.forks[fork], c.me);
            D.ChallengeDispute(c.env, w.chain, c.me, fork, challengeCnt, proofs, best.votes, best.finalized,
                               best.latest)
            == Revert
  {
    var d := w.chain.dispute;
    var each := D.ApplyEach(c.env, w.chain, c.me, d, proofs);
    ForkIsInOrder(c, w, fork);
    CertificateBegins(c, w.chain, w.client.replica.forks[fork], fork);
    if each.Ok? { DR.EachKeeps(c.env, w.chain, c.me, d, proofs); }
  }

  /** And such a vote is easily had: on the genesis state one block, signed by its author alone, is an accepted
      certificate for any state, at any height, whoever the author is and whether the machine gets there or not. */
  lemma SelfSignedIsAccepted(env: Env, chain: Chain, fork: nat, block: Block, signature: Signature, latest: Bytes,
                             threshold: seq<Address>)
    requires block.ChannelOf() == chain.channelId && block.Fork() == fork
    requires env.Signer(block, signature) == Some(block.Author())
    requires block.previousStateHash == env.keccak(chain.StateOf(fork)) && block.stateHash == env.keccak(latest)
    ensures D.FinalizedAndLatest(env, chain, fork, chain.StateOf(fork), latest, [ConfirmedBlock(block, [signature])],
                                 threshold) == Ok(true)
  {
    var votes := [ConfirmedBlock(block, [signature])];
    assert signature in votes[0].signatures && D.WellSigned(env, chain.channelId, fork, votes[0]);
    assert D.Linked(env, true, chain.StateOf(fork), latest, votes, 0);
  }
}
