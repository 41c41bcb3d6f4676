/** Which evidence can slash a client that follows the protocol. */
module HonestClient {
  import opened Types
  import opened Storage
  import opened DisputeRules
  import DR = DisputeRuns
  import opened ReplicaRules
  import R = ReplicaRuns
  import opened JointRuns
  import JT = JointTheorems
  import C = Certificates
  import P = ProofManager
  import T = Timeouts

  // ---------- what the client signs ----------

  /** The client records a block under its own signature; it sends a signature out only after that. */
  predicate Records(c: Client, r: Replica, block: Block) {
    r.InChain(block) && c.env.Signs(block, r.AgreementAt(block.Fork(), block.Height()).signatures, c.me)
  }

  /** At some point of the run the client stood by the block. */
  ghost predicate Vouched(c: Client, w: World, moves: seq<Move>, block: Block) {
    exists n: nat :: n <= |moves| && Records(c, Run(c, w, moves[..n]).client.replica, block)
  }

  lemma VouchedStays(c: Client, w: World, moves: seq<Move>, block: Block)
    requires Vouched(c, w, moves, block)
    ensures Run(c, w, moves).client.replica.InChain(block)
  {
    var n: nat :| n <= |moves| && Records(c, Run(c, w, moves[..n]).client.replica, block);
    RunGrows(c, w, moves, n);
    var r, later := Run(c, w, moves[..n]).client.replica, Run(c, w, moves).client.replica;
    assert R.ForkExtends(r.forks[block.Fork()], later.forks[block.Fork()]);
    assert R.AgreementExtends(r.AgreementAt(block.Fork(), block.Height()),
                              later.AgreementAt(block.Fork(), block.Height()));
  }

  /** In a whole run, derailed or not, the client stands by one block for each fork and height. */
  lemma OneBlockPerHeight(c: Client, w: World, moves: seq<Move>, a: Block, b: Block)
    requires Vouched(c, w, moves, a) && Vouched(c, w, moves, b)
    requires a.Fork() == b.Fork() && a.Height() == b.Height()
    ensures a == b
  {
    VouchedStays(c, w, moves, a);
    VouchedStays(c, w, moves, b);
  }

  /** Nobody else makes the client's signatures, and no other block has the hash of one it stood by: what the
      signature is read from is a block that the client stood by. */
  ghost predicate Genuine(c: Client, w: World, moves: seq<Move>, signed: SignedBlock) {
    c.env.Signer(signed.block, signed.signature) == Some(c.me) ==> Vouched(c, w, moves, signed.block)
  }

  // ---------- double signs ----------

  /** Double-sign evidence never convicts the client. */
  lemma {:induction false} NeverDoubleSigns(c: Client, w: World, moves: seq<Move>, d: Dispute,
                                            pairs: seq<(SignedBlock, SignedBlock)>)
    requires forall pair <- pairs :: Genuine(c, w, moves, pair.0) && Genuine(c, w, moves, pair.1)
    requires ApplyDoubleSign(c.env, d, pairs).Ok?
    ensures c.me in ApplyDoubleSign(c.env, d, pairs).value.dispute.slashed <==> c.me in d.slashed
  {
    if pairs != [] {
      var last := |pairs| - 1;
      NeverDoubleSigns(c, w, moves, d, pairs[..last]);
      var before := ApplyDoubleSign(c.env, d, pairs[..last]).value;
      PairSparesClient(c, w, moves, before, pairs[last]);
    }
  }

  lemma PairSparesClient(c: Client, w: World, moves: seq<Move>, before: Applied, pair: (SignedBlock, SignedBlock))
    requires Genuine(c, w, moves, pair.0) && Genuine(c, w, moves, pair.1)
    requires ApplyDoubleSignPair(c.env, before, pair).Ok?
    ensures c.me in ApplyDoubleSignPair(c.env, before, pair).value.dispute.slashed <==> c.me in before.dispute.slashed
  {
    DR.PairKeeps(c.env, before, pair);
    if c.env.Signer(pair.0.block, pair.0.signature) == Some(c.me) {
      OneBlockPerHeight(c, w, moves, pair.0.block, pair.1.block);
    }
    assert c.me in SetOf(before.dispute.slashed) <==> c.me in before.dispute.slashed;
    var after := ApplyDoubleSignPair(c.env, before, pair).value.dispute;
    assert c.me in SetOf(after.slashed) <==> c.me in after.slashed;
  }

  // ---------- the client's own blocks ----------

  /** What the client can play now. */
  predicate CanPlay(c: Client, r: Replica, body: Bytes, clock: nat) {
    && r.forks != [] && c.env.nextToWrite(r.machine) == c.me
    && c.env.step(r.machine, OwnTransaction(c, r, body, clock)).Some?
  }

  function SignedOwnBlock(c: Client, r: Replica, body: Bytes, clock: nat): SignedBlock
    requires CanPlay(c, r, body, clock)
  {
    SignedBlock(OwnBlock(c, r, body, clock), c.MySignature(OwnBlock(c, r, body, clock)))
  }

  /** What can be played is played: the block is appended with the client's signature. */
  lemma PlayedIsRecorded(c: Client, r: Replica, body: Bytes, clock: nat)
    requires c.OwnsSigner() && CanPlay(c, r, body, clock)
    ensures var played := PlayTransaction(c, r, body, clock);
            played.verdict == Success && Records(c, played.replica, OwnBlock(c, r, body, clock))
  {
    var played, own := PlayTransaction(c, r, body, clock).replica, SignedOwnBlock(c, r, body, clock);
    c.MySignatureIsMine(own.block);
    assert own.signature in played.AgreementAt(own.block.Fork(), own.block.Height()).signatures;
  }

  /** A block the client played, judged at any later time on its true predecessor and pre-state: no window is
      checked when it is played, so its author is punished exactly when it is late. */
  lemma OwnBlockVerdict(c: Client, w: World, body: Bytes, clock: nat, txs: seq<DR.Tx>, d: Dispute, block1: SignedBlock)
    requires c.OwnsSigner() && Invariant(c, w) && CanPlay(c, w.client.replica, body, clock)
    requires w.client.replica.LatestFork() !in w.client.derailed
    requires var r := w.client.replica;
             && JT.TruePredecessor(r.forks[r.LatestFork()], block1, SignedOwnBlock(c, r, body, clock), r.machine)
             && d.channelId == c.channelId && d.forkCnt == r.LatestFork()
    requires c.env.Signer(block1.block, block1.signature) == Some(block1.block.Author()) && OnDispute(d, block1.block)
    ensures var chain, r := DR.Run(c.env, w.chain, txs), w.client.replica;
            var own := SignedOwnBlock(c, r, body, clock);
            var latest := r.forks[r.LatestFork()].LatestBlockTimestamp();
            var previous := JT.JudgedFrom(c.env, chain, r.LatestFork(), r.machine, latest);
            ApplyIncorrectData(c.env, chain, d, block1, own, r.machine) ==
            if JT.Overflows(chain, previous, own.block) then Revert
            else if JT.Late(chain, previous, own.block) then Ok(Punish(d, c.me, block1.block.Height()))
            else Ok(Applied(d, false))
  {
    var r, own := w.client.replica, SignedOwnBlock(c, w.client.replica, body, clock);
    var chain := DR.Run(c.env, w.chain, txs);
    c.MySignatureIsMine(own.block);
    JT.LinkedBlockVerdict(c, w, own, txs, d, block1);
    JT.GenesisIsKept(c, w, txs, r.LatestFork());
    var latest := r.forks[r.LatestFork()].LatestBlockTimestamp();
    JT.TimeVerdict(chain, JT.JudgedFrom(c.env, chain, r.LatestFork(), r.machine, latest), own.block);
  }

  // ---------- the client's own dispute ----------

  /** A genuine signature of the client is on a block that its fork still holds. */
  lemma GenuineIsHeld(c: Client, w: World, moves: seq<Move>, signed: SignedBlock)
    requires Genuine(c, w, moves, signed) && c.env.Signer(signed.block, signed.signature) == Some(c.me)
    ensures Run(c, w, moves).client.replica.InChain(signed.block)
  {
    VouchedStays(c, w, moves, signed.block);
  }

  /** With blocks on the fork, the last vote of the dispute is newer-state evidence that slashes the client; without
      any, no newer-state evidence with a genuine signature is accepted. */
  ghost predicate ExposedByOwnVote(c: Client, w: World, moves: seq<Move>, fork: nat, d: Dispute)
    requires fork < |Run(c, w, moves).client.replica.forks|
  {
    if Run(c, w, moves).client.replica.forks[fork].agreements != [] then
      d.votes != [] &&
      var vote := d.votes[|d.votes| - 1];
      exists s <- vote.signatures :: ApplyNewerState(c.env, d, vote.block, s) == Ok(Slash(d, c.me))
    else
      forall block, confirmation :: Genuine(c, w, moves, SignedBlock(block, confirmation)) ==>
        ApplyNewerState(c.env, d, block, confirmation) == Revert
  }

  /** The contract takes a block at the height of the last vote for a newer one. So when the client has signed anything
      on the fork, the last vote of a dispute or challenge on its best certificate convicts it, with its own signature
      on it. When it has signed nothing, no newer-state evidence does, whatever votes were stored before. */
  lemma NewerStateAgainstPoster(c: Client, w: World, moves: seq<Move>, fork: nat, stored: seq<ConfirmedBlock>,
                                d: Dispute)
    requires c.OwnsSigner() && Invariant(c, w) && fork < |Run(c, w, moves).client.replica.forks|
    requires d.channelId == c.channelId && d.forkCnt == fork && d.postedStateDisputer == c.me
    requires d.votes == stored + C.BestCertificate(c.env, Run(c, w, moves).client.replica.forks[fork], c.me).votes
    ensures ExposedByOwnVote(c, w, moves, fork, d)
  {
    var later := Run(c, w, moves);
    var f := later.client.replica.forks[fork];
    RunKeeps(c, w, moves);
    T.ForkIsInOrder(c, later, fork);
    C.LastVote(c.env, f, c.me);
    if f.agreements != [] {
      assert R.ForkSound(c, f, fork, later.client.Sound(fork));
      OwnVoteIsSigned(c, f, fork, later.client.Sound(fork));
      VoteConvicts(c.env, d, d.votes[|d.votes| - 1]);
    } else {
      forall block, confirmation | Genuine(c, w, moves, SignedBlock(block, confirmation))
        ensures ApplyNewerState(c.env, d, block, confirmation) == Revert
      {
        if c.env.Signer(block, confirmation) == Some(c.me) {
          GenuineIsHeld(c, w, moves, SignedBlock(block, confirmation));
        }
      }
    }
  }

  /** The call by which the client posts its best certificate on the fork. */
  predicate PostsBest(c: Client, w: World, fork: nat, call: DR.Call)
    requires fork < |w.client.replica.forks|
  {
    match call
    case Create(forkCnt, _, _, votes, _, _, _) =>
      forkCnt == fork && votes == C.BestCertificate(c.env, w.client.replica.forks[fork], c.me).votes
    case Challenge(forkCnt, _, _, votes, _, _) =>
      forkCnt == fork && votes == C.BestCertificate(c.env, w.client.replica.forks[fork], c.me).votes
    case _ => false
  }

  lemma StoredByPoster(c: Client, w: World, fork: nat, call: DR.Call)
    requires Invariant(c, w) && fork < |w.client.replica.forks| && PostsBest(c, w, fork, call)
    requires DR.Execute(c.env, w.chain, DR.Tx(c.me, call)).Ok?
    ensures var d := DR.Execute(c.env, w.chain, DR.Tx(c.me, call)).value.dispute;
            && d.channelId == c.channelId && d.forkCnt == fork && d.postedStateDisputer == c.me
            && d.votes == w.chain.dispute.votes + C.BestCertificate(c.env, w.client.replica.forks[fork], c.me).votes
  {
    var tx := DR.Tx(c.me, call);
    if call.Create? {
      DR.CreateKeeps(c.env, w.chain, tx);
    } else {
      DR.ChallengeKeeps(c.env, w.chain, tx);
      DR.ChallengeOnDispute(c.env, w.chain, tx);
    }
  }

  /** The same for what a run stores: the dispute that an accepted call of the client leaves. */
  lemma NewerStateAgainstStored(c: Client, w: World, moves: seq<Move>, fork: nat, call: DR.Call)
    requires c.OwnsSigner() && Invariant(c, w) && fork < |Run(c, w, moves).client.replica.forks|
    requires PostsBest(c, Run(c, w, moves), fork, call)
    requires DR.Execute(c.env, Run(c, w, moves).chain, DR.Tx(c.me, call)).Ok?
    ensures ExposedByOwnVote(c, w, moves, fork,
                             DR.Execute(c.env, Run(c, w, moves).chain, DR.Tx(c.me, call)).value.dispute)
  {
    var later := Run(c, w, moves);
    RunKeeps(c, w, moves);
    StoredByPoster(c, later, fork, call);
    NewerStateAgainstPoster(c, w, moves, fork, later.chain.dispute.votes,
                            DR.Execute(c.env, later.chain, DR.Tx(c.me, call)).value.dispute);
  }

  lemma OwnVoteIsSigned(c: Client, f: Fork, fork: nat, sound: nat)
    requires R.ForkSound(c, f, fork, sound) && C.BestCertificate(c.env, f, c.me).votes != []
    ensures var votes := C.BestCertificate(c.env, f, c.me).votes;
            var vote := votes[|votes| - 1];
            && vote.block.ChannelOf() == c.channelId && vote.block.Fork() == fork
            && c.env.Signs(vote.block, vote.signatures, c.me)
  {
    var m := C.LatestSigned(c.env, f.agreements, c.me, |f.agreements|);
    C.LastVote(c.env, f, c.me);
    assert C.SignedBy(c.env, f.agreements[m], c.me) && R.Authenticated(c, fork, m, f.agreements[m]);
  }

  lemma VoteConvicts(env: Env, d: Dispute, vote: ConfirmedBlock)
    requires d.votes != [] && vote == d.votes[|d.votes| - 1] && OnDispute(d, vote.block)
    requires env.Signs(vote.block, vote.signatures, d.postedStateDisputer)
    ensures exists s <- vote.signatures :: ApplyNewerState(env, d, vote.block, s) == Ok(Slash(d, d.postedStateDisputer))
  {
    var s :| s in vote.signatures && env.Signer(vote.block, s) == Some(d.postedStateDisputer);
    assert ApplyNewerState(env, d, vote.block, s) == Ok(Slash(d, d.postedStateDisputer));
  }

  // ---------- what an accepted certificate means ----------

  /** The client holds the block, and up to the fork's first failed execution the block's state is the client's. */
  predicate Holds(c: Client, w: World, block: Block) {
    && w.client.replica.InChain(block)
    && (block.Height() < w.client.Sound(block.Fork()) ==>
          block.stateHash == c.env.keccak(w.client.replica.AgreementAt(block.Fork(), block.Height()).state))
  }

  lemma OwnVoteIsHeld(c: Client, w: World, moves: seq<Move>, vote: ConfirmedBlock)
    requires c.OwnsSigner() && Invariant(c, w) && c.env.Signs(vote.block, vote.signatures, c.me)
    requires forall s <- vote.signatures :: Genuine(c, w, moves, SignedBlock(vote.block, s))
    ensures Holds(c, Run(c, w, moves), vote.block)
  {
    var s :| s in vote.signatures && c.env.Signer(vote.block, s) == Some(c.me);
    GenuineIsHeld(c, w, moves, SignedBlock(vote.block, s));
    RunKeeps(c, w, moves);
    var t, fork := Run(c, w, moves).client, vote.block.Fork();
    assert R.ForkSound(c, t.replica.forks[fork], fork, t.Sound(fork));
    if vote.block.Height() < t.Sound(fork) { assert R.Executed(c.env, t.replica.forks[fork], vote.block.Height()); }
  }

  /** Whoever made it, a certificate that the contract accepts off genesis has a block of every participant: for a
      client one that it holds, with the state it recorded. The finalized state is the client's when the client signed
      the first vote. */
  lemma AcceptedIsHeld(c: Client, w: World, moves: seq<Move>, fork: nat, finalized: Bytes, latest: Bytes,
                       votes: seq<ConfirmedBlock>, threshold: seq<Address>)
    requires c.OwnsSigner() && Invariant(c, w) && votes != [] && c.me in threshold
    requires FinalizedAndLatest(c.env, Run(c, w, moves).chain, fork, finalized, latest, votes, threshold) == Ok(true)
    requires !Run(c, w, moves).chain.IsGenesisState(c.env, fork, finalized)
    requires forall vote <- votes :: forall s <- vote.signatures :: Genuine(c, w, moves, SignedBlock(vote.block, s))
    ensures exists vote <- votes :: Holds(c, Run(c, w, moves), vote.block)
    ensures c.env.Signs(votes[0].block, votes[0].signatures, c.me) ==>
              var later, first := Run(c, w, moves), votes[0].block;
              && Holds(c, later, first)
              && (first.Height() < later.client.Sound(first.Fork()) ==>
                    c.env.keccak(finalized)
                    == c.env.keccak(later.client.replica.AgreementAt(first.Fork(), first.Height()).state))
  {
    C.CertificateSoundness(c.env, Run(c, w, moves).chain, fork, finalized, latest, votes, threshold);
    var vote :| vote in votes && c.env.Signs(vote.block, vote.signatures, c.me);
    OwnVoteIsHeld(c, w, moves, vote);
    if c.env.Signs(votes[0].block, votes[0].signatures, c.me) { OwnVoteIsHeld(c, w, moves, votes[0]); }
  }

  // ---------- the client's own timeouts ----------

  /** The fork is at a standstill for the client: it is disputed, and in its last state it is somebody else's turn. */
  ghost predicate Standstill(c: Client, r: Replica, fork: nat) {
    && fork < |r.forks| && fork in r.disputed
    && (fork == r.LatestFork() ==> c.env.nextToWrite(r.forks[fork].LastState()) != c.me)
  }

  /** Nothing was appended to the fork, and it is still disputed. */
  predicate Unmoved(r: Replica, after: Replica, fork: nat) {
    && fork < |r.forks| && fork < |after.forks| && fork in after.disputed
    && |after.forks[fork].agreements| == |r.forks[fork].agreements|
  }

  lemma ArrivalAtStandstill(c: Client, r: Replica, signed: SignedBlock, clock: nat, chainTime: nat, fork: nat)
    requires fork < |r.forks| && fork in r.disputed
    ensures Unmoved(r, OnSignedBlock(c, r, signed, clock, chainTime).replica, fork)
  {
    var v := ValidateSignedBlock(c, r, signed, clock, chainTime);
    R.ValidateShape(c, r, signed, clock, chainTime);
    R.DecideShape(c, v.replica, signed, v.verdict);
  }

  lemma ConfirmationAtStandstill(c: Client, r: Replica, signed: SignedBlock, confirmation: Signature, clock: nat,
                                 chainTime: nat, fork: nat)
    requires fork < |r.forks| && fork in r.disputed
    ensures Unmoved(r, OnBlockConfirmation(c, r, signed, confirmation, clock, chainTime).replica, fork)
  {
    ArrivalAtStandstill(c, r, signed, clock, chainTime, fork);
    R.ConfirmationShape(c, r, signed, confirmation, clock, chainTime);
  }

  lemma PlayAtStandstill(c: Client, r: Replica, body: Bytes, clock: nat, fork: nat)
    requires Standstill(c, r, fork) && (fork == r.LatestFork() ==> r.machine == r.forks[fork].LastState())
    ensures Unmoved(r, PlayTransaction(c, r, body, clock).replica, fork)
  {}

  lemma StepAtStandstill(c: Client, r: Replica, step: R.Step, fork: nat)
    requires Standstill(c, r, fork) && (fork == r.LatestFork() ==> r.machine == r.forks[fork].LastState())
    ensures Unmoved(r, R.Next(c, r, step), fork)
  {
    match step
    case SignedBlockArrives(signed, clock, chainTime) => ArrivalAtStandstill(c, r, signed, clock, chainTime, fork);
    case ConfirmationArrives(signed, confirmation, clock, chainTime) =>
      ConfirmationAtStandstill(c, r, signed, confirmation, clock, chainTime, fork);
    case Play(body, clock) => PlayAtStandstill(c, r, body, clock, fork);
    case CalldataPosted(posted, timestamp) => R.CollectShape(c, r, posted, timestamp);
    case _ =>
  }

  lemma UnmovedStands(c: Client, r: Replica, after: Replica, fork: nat)
    requires Standstill(c, r, fork) && Unmoved(r, after, fork) && R.Grows(r, after)
    ensures Standstill(c, after, fork)
  {
    var f, g := r.forks[fork], after.forks[fork];
    assert R.ForkExtends(f, g);
    if f.agreements != [] {
      assert R.AgreementExtends(f.agreements[|f.agreements| - 1], g.agreements[|f.agreements| - 1]);
    }
  }

  /** As long as the machine is not derailed, nothing is appended to such a fork any more. */
  lemma {:induction false} StaysAtStandstill(c: Client, w: World, moves: seq<Move>, fork: nat)
    requires c.OwnsSigner() && Invariant(c, w) && Standstill(c, w.client.replica, fork)
    requires fork !in Run(c, w, moves).client.derailed
    ensures Standstill(c, Run(c, w, moves).client.replica, fork)
    ensures Unmoved(w.client.replica, Run(c, w, moves).client.replica, fork)
  {
    if moves != [] {
      var last := |moves| - 1;
      var before := Run(c, w, moves[..last]);
      StaysAtStandstill(c, w, moves[..last], fork);
      RunKeeps(c, w, moves[..last]);
      if moves[last].Local? && Allowed(before, moves[last].step) {
        StepAtStandstill(c, before.client.replica, moves[last].step, fork);
        R.StepGrows(c, before.client.replica, moves[last].step);
        UnmovedStands(c, before.client.replica, Run(c, w, moves).client.replica, fork);
      }
    }
  }

  lemma RunMore(c: Client, w: World, moves: seq<Move>, move: Move)
    ensures Run(c, w, moves + [move]) == Next(c, Run(c, w, moves), move)
  {
    assert (moves + [move])[..|moves|] == moves;
  }

  lemma {:induction false} RunSplits(c: Client, w: World, moves: seq<Move>, n: nat)
    requires n <= |moves|
    ensures Run(c, Run(c, w, moves[..n]), moves[n..]) == Run(c, w, moves)
  {
    if n == |moves| {
      assert moves[..n] == moves;
    } else {
      var front, last := moves[..|moves| - 1], moves[|moves| - 1];
      RunSplits(c, w, front, n);
      assert moves == front + [last] && moves[..n] == front[..n] && moves[n..] == front[n..] + [last];
      RunMore(c, w, front, last);
      RunMore(c, Run(c, w, front[..n]), front[n..], last);
    }
  }

  lemma FoldNeedsEveryone(c: Client, d: Dispute, block: Block, signatures: seq<Signature>)
    requires ApplyFoldRechallenge(c.env, d, block, signatures).Ok?
    ensures forall a <- d.participants :: c.env.Signs(block, signatures, a)
  {
    forall a | a in d.participants ensures c.env.Signs(block, signatures, a) {
      assert a in multiset(d.participants);
      P.RecoveredMembers(c.env, block, signatures, a);
    }
  }

  /** The claim is accepted, on the client's latest fork, which the call marks as disputed; no block stands at the
      height. Above height 0 the last follows from the rest (Timeouts.TimeoutVerdict). */
  ghost predicate Claimed(c: Client, w: World, fork: nat, participant: Address, height: nat) {
    var r := w.client.replica;
    && r.forks != [] && fork == r.LatestFork() && fork in r.disputed && participant != ZERO_ADDRESS
    && (height == 0 ==> r.forks[fork].agreements == [])
    && var best := C.BestCertificate(c.env, r.forks[fork], c.me);
       TimeoutAccepted(c.env, w.chain, c.me, fork, best.latest, best.votes, participant, height)
  }

  lemma ClaimedIsOpen(c: Client, w: World, fork: nat, participant: Address, height: nat)
    requires Invariant(c, w) && Claimed(c, w, fork, participant, height)
    ensures Standstill(c, w.client.replica, fork) && |w.client.replica.forks[fork].agreements| == height
  {
    T.TimeoutVerdict(c, w, fork, participant, height);
  }

  lemma StaysOpen(c: Client, w: World, moves: seq<Move>, n: nat, fork: nat, participant: Address, height: nat)
    requires c.OwnsSigner() && Invariant(c, w) && n <= |moves|
    requires Claimed(c, Run(c, w, moves[..n]), fork, participant, height)
    requires fork !in Run(c, w, moves).client.derailed
    ensures !Run(c, w, moves).client.replica.Known(fork, height)
  {
    var at := Run(c, w, moves[..n]);
    RunKeeps(c, w, moves[..n]);
    ClaimedIsOpen(c, at, fork, participant, height);
    RunSplits(c, w, moves, n);
    StaysAtStandstill(c, at, moves[n..], fork);
  }

  /** Nobody can punish the client for such a claim, however long the run goes on, as long as its machine does not
      derail: the evidence that everyone signed the block at the height reverts. */
  lemma TimeoutIsSafe(c: Client, w: World, moves: seq<Move>, n: nat, fork: nat, participant: Address, height: nat,
                      d: Dispute, block: Block, signatures: seq<Signature>)
    requires c.OwnsSigner() && Invariant(c, w) && n <= |moves|
    requires Claimed(c, Run(c, w, moves[..n]), fork, participant, height)
    requires fork !in Run(c, w, moves).client.derailed
    requires d.forkCnt == fork && d.foldedTransactionCnt == height && c.me in d.participants
    requires forall s <- signatures :: Genuine(c, w, moves, SignedBlock(block, s))
    ensures ApplyFoldRechallenge(c.env, d, block, signatures) == Revert
  {
    StaysOpen(c, w, moves, n, fork, participant, height);
    if ApplyFoldRechallenge(c.env, d, block, signatures).Ok? {
      FoldNeedsEveryone(c, d, block, signatures);
      var s :| s in signatures && c.env.Signer(block, s) == Some(c.me);
      GenuineIsHeld(c, w, moves, SignedBlock(block, s));
      assert false;
    }
  }

  // ---------- what is left ----------

  /** Every signature of the client on the blocks of the evidence is genuine. */
  ghost predicate GenuineEvidence(c: Client, w: World, moves: seq<Move>, proof: Proof) {
    match proof
    case DoubleSign(pairs) => forall pair <- pairs :: Genuine(c, w, moves, pair.0) && Genuine(c, w, moves, pair.1)
    case IncorrectData(block1, block2, _) => Genuine(c, w, moves, block1) && Genuine(c, w, moves, block2)
    case NewerState(block, confirmation) => Genuine(c, w, moves, SignedBlock(block, confirmation))
    case BlockTooFarInFuture(early) => Genuine(c, w, moves, early)
    case _ => true
  }

  /** What evidence that slashes an address has shown of it. */
  lemma EvidenceShows(env: Env, chain: Chain, sender: Address, d: Dispute, proof: Proof, a: Address)
    requires ApplyProof(env, chain, sender, d, proof).Ok?
    requires a !in d.slashed && a in ApplyProof(env, chain, sender, d, proof).value.dispute.slashed
    ensures match proof
            case FoldRechallenge(block, _) => d.timeoutDisputer == a && block.Height() == d.foldedTransactionCnt
            case DoubleSign(_) => true
            case IncorrectData(_, block2, preState) =>
              && block2.block.Author() == a && env.Signer(block2.block, block2.signature) == Some(a)
              && block2.block.previousStateHash == env.keccak(preState)
            case NewerState(block, confirmation) =>
              && d.postedStateDisputer == a && env.Signer(block, confirmation) == Some(a)
              && d.votes != [] && block.Height() >= d.votes[|d.votes| - 1].block.Height()
            case BlockTooFarInFuture(early) =>
              && early.block.Author() == a && env.Signer(early.block, early.signature) == Some(a)
              && early.block.Timestamp() > chain.now
            case _ => false
  {
    match proof
    case IncorrectData(block1, block2, preState) =>
      DR.IncorrectDataKeeps(env, chain, d, block1, block2, preState);
    case _ =>
  }

  /** Everything that can slash a client which follows the protocol: a timeout it claimed of a block that everyone
      signed; a block of its own that is judged incorrect; a state it posted, by a block it signed at or above the
      last vote; and a block of its own that is ahead of the chain's clock. */
  lemma WhatSlashes(c: Client, w: World, moves: seq<Move>, chain: Chain, sender: Address, d: Dispute, proof: Proof)
    requires GenuineEvidence(c, w, moves, proof) && ApplyProof(c.env, chain, sender, d, proof).Ok?
    requires c.me !in d.slashed && c.me in ApplyProof(c.env, chain, sender, d, proof).value.dispute.slashed
    ensures match proof
            case FoldRechallenge(block, signatures) =>
              && d.timeoutDisputer == c.me && block.Height() == d.foldedTransactionCnt
              && forall a <- d.participants :: c.env.Signs(block, signatures, a)
            case IncorrectData(block1, block2, preState) =>
              && block2.block.Author() == c.me && Vouched(c, w, moves, block2.block)
              && block2.block.previousStateHash == c.env.keccak(preState)
            case NewerState(block, _) =>
              && d.postedStateDisputer == c.me && Vouched(c, w, moves, block)
              && d.votes != [] && block.Height() >= d.votes[|d.votes| - 1].block.Height()
            case BlockTooFarInFuture(early) =>
              && early.block.Author() == c.me && Vouched(c, w, moves, early.block)
              && early.block.Timestamp() > chain.now
            case _ => false
  {
    EvidenceShows(c.env, chain, sender, d, proof, c.me);
    match proof
    case FoldRechallenge(block, signatures) => FoldNeedsEveryone(c, d, block, signatures);
    case DoubleSign(pairs) => NeverDoubleSigns(c, w, moves, d, pairs);
    case _ =>
  }
}
