/** Whole runs of the dispute contract: any callers, any calls, chain time never decreasing. */
module DisputeRuns {
  import opened Types
  import opened Storage
  import opened DisputeRules

  datatype Call =
    | Tick(seconds: nat)
    | Post(signed: SignedBlock)
    | Create(forkCnt: nat, finalized: Bytes, latest: Bytes, votes: seq<ConfirmedBlock>,
             timedout: Address, folded: nat, proofs: seq<Proof>)
    | Challenge(forkCnt: nat, challengeCnt: nat, proofs: seq<Proof>, votes: seq<ConfirmedBlock>,
                finalized: Bytes, latest: Bytes)

  datatype Tx = Tx(sender: Address, call: Call)

  function Execute(env: Env, c: Chain, tx: Tx): Outcome<Chain> {
    match tx.call
    case Tick(seconds) => Ok(c.(now := c.now + seconds))
    case Post(signed) => PostBlockCalldata(env, c, tx.sender, signed)
    case Create(forkCnt, finalized, latest, votes, timedout, folded, proofs) =>
      CreateDispute(env, c, tx.sender, forkCnt, finalized, latest, votes, timedout, folded, proofs)
    case Challenge(forkCnt, challengeCnt, proofs, votes, finalized, latest) =>
      ChallengeDispute(env, c, tx.sender, forkCnt, challengeCnt, proofs, votes, finalized, latest)
  }

  /** A reverted call leaves the chain as it was. */
  function Next(env: Env, c: Chain, tx: Tx): Chain {
    match Execute(env, c, tx)
    case Ok(after) => after
    case Revert => c
  }

  function Run(env: Env, c: Chain, txs: seq<Tx>): Chain {
    if txs == [] then c
    else Next(env, Run(env, c, txs[..|txs| - 1]), txs[|txs| - 1])
  }

  /** The chain right after openChannel. */
  function Opened(channelId: ChannelId, times: Times, now: nat, genesis: Bytes): Chain {
    Chain(channelId, times, now, 0, map[0 := genesis], map[0 := now], map[], NO_DISPUTE)
  }

  ghost predicate PostedInThePast(c: Chain) {
    forall fork: nat, key: (nat, Address) :: c.DataOf(fork).TimeOf(key) <= c.now
  }

  /** What every run keeps: gapless forks with ordered genesis times, the dispute's fork and its latest
      state at the head of the fork list, a slashed list without duplicates, and no forced leave. */
  ghost predicate Consistent(c: Chain) {
    && c.channelId != 0
    && (forall fork: nat :: fork in c.states <==> fork <= c.latestFork)
    && (forall fork: nat :: fork in c.genesisTimes <==> fork <= c.latestFork)
    && (forall i: nat, j: nat :: i <= j <= c.latestFork ==> c.genesisTimes[i] <= c.genesisTimes[j] <= c.now)
    && PostedInThePast(c)
    && Distinct(c.dispute.slashed) && c.dispute.leaves == []
    && (c.dispute.channelId != 0 ==>
          && c.dispute.channelId == c.channelId
          && c.dispute.deadlineTimestamp <= c.now + c.times.challenge
          && c.latestFork == c.dispute.forkCnt + 1 + c.dispute.challengeCnt
          && c.states[c.latestFork] == c.dispute.latestState)
  }

  ghost predicate DataExtends(a: ForkData, b: ForkData) {
    && a.keys <= b.keys
    && forall key: (nat, Address) :: a.TimeOf(key) <= b.TimeOf(key)
  }

  /** What is never undone: forks are written once, posted times grow, votes and slashes only append. */
  ghost predicate Extends(c: Chain, after: Chain) {
    && after.channelId == c.channelId && after.times == c.times && c.now <= after.now
    && c.latestFork <= after.latestFork
    && (forall fork: nat :: fork <= c.latestFork ==>
          after.StateOf(fork) == c.StateOf(fork) && after.GenesisTime(fork) == c.GenesisTime(fork))
    && (forall fork: nat :: DataExtends(c.DataOf(fork), after.DataOf(fork)))
    && c.dispute.votes <= after.dispute.votes
    && c.dispute.slashed <= after.dispute.slashed
  }

  // ---------- evidence ----------

  predicate IsSlashing(proof: Proof) {
    proof.FoldRechallenge? || proof.DoubleSign? || proof.IncorrectData? || proof.NewerState?
    || proof.BlockTooFarInFuture?
  }

  /** What evidence leaves alone, and how it moves the slashed list. */
  ghost predicate EvidenceKeeps(d: Dispute, after: Dispute) {
    && after.(timedout := d.timedout, timeoutDisputer := d.timeoutDisputer, slashed := d.slashed, joins := d.joins) == d
    && d.slashed <= after.slashed
    && (Distinct(d.slashed) ==> Distinct(after.slashed))
  }

  /** The addresses one piece of evidence can slash. */
  function Accused(env: Env, d: Dispute, proof: Proof): set<Address> {
    match proof
    case FoldRechallenge(_, _) => {d.timeoutDisputer}
    case DoubleSign(pairs) =>
      set pair <- pairs | env.Signer(pair.0.block, pair.0.signature).Some? ::
        env.Signer(pair.0.block, pair.0.signature).value
    case IncorrectData(_, block2, _) => {block2.block.Author()}
    case NewerState(_, _) => {d.postedStateDisputer}
    case BlockTooFarInFuture(early) => {early.block.Author()}
    case _ => {}
  }

  lemma PairKeeps(env: Env, before: Applied, pair: (SignedBlock, SignedBlock))
    requires ApplyDoubleSignPair(env, before, pair).Ok?
    ensures var a := ApplyDoubleSignPair(env, before, pair).value;
            var signer := env.Signer(pair.0.block, pair.0.signature);
            && signer.Some?
            && EvidenceKeeps(before.dispute, a.dispute) && a.dispute.joins == before.dispute.joins
            && a.success == (before.success || |a.dispute.slashed| > |before.dispute.slashed|)
            && SetOf(a.dispute.slashed) == SetOf(before.dispute.slashed) + {signer.value}
  {}

  lemma {:induction false} DoubleSignKeeps(env: Env, d: Dispute, pairs: seq<(SignedBlock, SignedBlock)>)
    requires ApplyDoubleSign(env, d, pairs).Ok?
    ensures var a := ApplyDoubleSign(env, d, pairs).value;
            && EvidenceKeeps(d, a.dispute) && a.dispute.joins == d.joins
            && (a.success <==> |a.dispute.slashed| > |d.slashed|)
            && SetOf(a.dispute.slashed) <= SetOf(d.slashed) + Accused(env, d, DoubleSign(pairs))
  {
    if pairs != [] {
      var last := |pairs| - 1;
      DoubleSignKeeps(env, d, pairs[..last]);
      PairKeeps(env, ApplyDoubleSign(env, d, pairs[..last]).value, pairs[last]);
      assert pairs[last] in pairs;
      assert Accused(env, d, DoubleSign(pairs[..last])) <= Accused(env, d, DoubleSign(pairs));
    }
  }

  lemma IncorrectDataKeeps(env: Env, c: Chain, d: Dispute, block1: SignedBlock, block2: SignedBlock, preState: Bytes)
    requires ApplyIncorrectData(env, c, d, block1, block2, preState).Ok?
    ensures var a := ApplyIncorrectData(env, c, d, block1, block2, preState).value;
            && EvidenceKeeps(d, a.dispute)
            && (a.success <==> |a.dispute.slashed| > |d.slashed|)
            && SetOf(a.dispute.slashed) <= SetOf(d.slashed) + {block2.block.Author()}
  {}

  lemma ProofKeeps(env: Env, c: Chain, sender: Address, d: Dispute, proof: Proof)
    requires ApplyProof(env, c, sender, d, proof).Ok?
    ensures var a := ApplyProof(env, c, sender, d, proof).value;
            && EvidenceKeeps(d, a.dispute)
            && (IsSlashing(proof) ==> (a.success <==> |a.dispute.slashed| > |d.slashed|))
            && SetOf(a.dispute.slashed) <= SetOf(d.slashed) + Accused(env, d, proof)
  {
    match proof
    case DoubleSign(pairs) => DoubleSignKeeps(env, d, pairs);
    case IncorrectData(block1, block2, preState) => IncorrectDataKeeps(env, c, d, block1, block2, preState);
    case _ =>
  }

  /** Everyone the evidence of one call can slash. */
  function AccusedByAll(env: Env, c: Chain, sender: Address, d: Dispute, proofs: seq<Proof>): set<Address> {
    if proofs == [] then {}
    else
      var last := |proofs| - 1;
      AccusedByAll(env, c, sender, d, proofs[..last]) +
      match ApplyEach(env, c, sender, d, proofs[..last])
      case Revert => {}
      case Ok(before) => Accused(env, before.dispute, proofs[last])
  }

  lemma {:induction false} EachKeeps(env: Env, c: Chain, sender: Address, d: Dispute, proofs: seq<Proof>)
    requires ApplyEach(env, c, sender, d, proofs).Ok?
    ensures var a := ApplyEach(env, c, sender, d, proofs).value;
            && EvidenceKeeps(d, a.dispute)
            && ((forall proof <- proofs :: IsSlashing(proof)) ==> (a.success <==> |a.dispute.slashed| > |d.slashed|))
            && SetOf(a.dispute.slashed) <= SetOf(d.slashed) + AccusedByAll(env, c, sender, d, proofs)
  {
    if proofs != [] {
      var last := |proofs| - 1;
      EachKeeps(env, c, sender, d, proofs[..last]);
      var before := ApplyEach(env, c, sender, d, proofs[..last]).value;
      ProofKeeps(env, c, sender, before.dispute, proofs[last]);
    }
  }

  // ---------- one step ----------

  /** One more fork, whose genesis time is now. */
  predicate OpensFork(c: Chain, after: Chain) {
    after.latestFork == c.latestFork + 1 && after.GenesisTime(after.latestFork) == after.now
  }

  lemma SetStateKeeps(c: Chain, d: Dispute)
    requires Consistent(c)
    requires d.channelId == c.channelId && d.forkCnt + 1 + d.challengeCnt == c.latestFork + 1
    requires d.deadlineTimestamp <= c.now + c.times.challenge
    requires Distinct(d.slashed) && d.leaves == [] && c.dispute.votes <= d.votes && c.dispute.slashed <= d.slashed
    ensures var after := c.(dispute := d).WithState(d.latestState);
            Consistent(after) && Extends(c, after) && OpensFork(c, after)
  {
    var after := c.(dispute := d).WithState(d.latestState);
    assert forall fork: nat :: after.DataOf(fork) == c.DataOf(fork);
  }

  /** The dispute a call applies its evidence to. */
  function Handed(env: Env, c: Chain, tx: Tx): Dispute {
    match tx.call
    case Create(forkCnt, finalized, latest, votes, timedout, folded, _) =>
      FreshDispute(c, tx.sender, forkCnt, finalized, latest, votes, timedout, folded,
                   env.participants(c.StateOf(forkCnt)))
    case _ => c.dispute
  }

  /** The evidence of an accepted call was accepted, and decides who is slashed. */
  lemma CreateApplies(env: Env, c: Chain, tx: Tx)
    requires tx.call.Create? && Execute(env, c, tx).Ok?
    ensures var each := ApplyEach(env, c, tx.sender, Handed(env, c, tx), tx.call.proofs);
            && each.Ok? && Execute(env, c, tx).value.dispute.slashed == each.value.dispute.slashed
            && tx.sender !in each.value.dispute.slashed
            && ApplyToLatestState(env, each.value.dispute) == Ok(Execute(env, c, tx).value.dispute)
  {}

  lemma ChallengeApplies(env: Env, c: Chain, tx: Tx)
    requires tx.call.Challenge? && Execute(env, c, tx).Ok?
    ensures var each, call := ApplyEach(env, c, tx.sender, Handed(env, c, tx), tx.call.proofs), tx.call;
            && each.Ok? && each.value.success && Execute(env, c, tx).value.dispute.slashed == each.value.dispute.slashed
            && tx.sender !in each.value.dispute.slashed
            && ApplyToLatestState(env,
                                  Challenged(c, tx.sender, each.value.dispute, call.votes, call.finalized, call.latest))
               == Ok(Execute(env, c, tx).value.dispute)
  {}

  /** An accepted dispute or challenge stores its dispute and opens one fork, on the dispute's latest state. */
  lemma CreateOpensFork(env: Env, c: Chain, tx: Tx)
    requires tx.call.Create? && Execute(env, c, tx).Ok?
    ensures var after := Execute(env, c, tx).value;
            after == c.(dispute := after.dispute).WithState(after.dispute.latestState)
  {}

  lemma ChallengeOpensFork(env: Env, c: Chain, tx: Tx)
    requires tx.call.Challenge? && Execute(env, c, tx).Ok?
    ensures var after := Execute(env, c, tx).value;
            after == c.(dispute := after.dispute).WithState(after.dispute.latestState)
  {}

  lemma SettlingKeeps(env: Env, d: Dispute)
    requires ApplyToLatestState(env, d).Ok?
    ensures var settled := ApplyToLatestState(env, d).value;
            settled.(latestState := d.latestState, exits := d.exits) == d
  {}

  /** An accepted createDispute: the dispute before is over, and the stored one is the sender's, with its certificate.
      */
  lemma CreateKeeps(env: Env, c: Chain, tx: Tx)
    requires Consistent(c) && tx.call.Create? && Execute(env, c, tx).Ok?
    ensures c.dispute.channelId == 0 || c.dispute.deadlineTimestamp < c.now
    ensures var after := Execute(env, c, tx).value;
            && Consistent(after) && Extends(c, after) && OpensFork(c, after)
            && tx.sender !in after.dispute.slashed
            && after.dispute.channelId != 0 && after.dispute.challengeCnt == 0
            && after.dispute.forkCnt == tx.call.forkCnt == c.latestFork
            && after.dispute.participants == env.participants(c.StateOf(tx.call.forkCnt))
            && after.dispute.postedStateDisputer == tx.sender
            && after.dispute.votes == c.dispute.votes + tx.call.votes
            && after.dispute.finalizedState == tx.call.finalized
            && after.dispute.foldedTransactionCnt == tx.call.folded
            && after.dispute.creationTimestamp == c.now
            && after.dispute.deadlineTimestamp == c.now + c.times.challenge
  {
    var each := ApplyEach(env, c, tx.sender, Handed(env, c, tx), tx.call.proofs);
    CreateApplies(env, c, tx);
    EachKeeps(env, c, tx.sender, Handed(env, c, tx), tx.call.proofs);
    SettlingKeeps(env, each.value.dispute);
    CreateOpensFork(env, c, tx);
    CreateOnLatest(env, c, tx);
    SetStateKeeps(c, Execute(env, c, tx).value.dispute);
  }

  lemma CreateOnLatest(env: Env, c: Chain, tx: Tx)
    requires tx.call.Create? && Execute(env, c, tx).Ok?
    ensures tx.call.forkCnt == c.latestFork && (c.dispute.channelId == 0 || c.dispute.deadlineTimestamp < c.now)
  {}

  /** An accepted challengeDispute: the stored dispute is over the same fork, and is now the sender's, with its
      certificate, its votes behind those before, and a new deadline. */
  lemma ChallengeKeeps(env: Env, c: Chain, tx: Tx)
    requires Consistent(c) && tx.call.Challenge? && Execute(env, c, tx).Ok?
    ensures var after := Execute(env, c, tx).value;
            && Consistent(after) && Extends(c, after) && OpensFork(c, after)
            && tx.sender !in after.dispute.slashed
            && after.dispute.channelId == c.dispute.channelId
            && after.dispute.forkCnt == c.dispute.forkCnt && after.dispute.challengeCnt == c.dispute.challengeCnt + 1
            && after.dispute.participants == c.dispute.participants
            && after.dispute.postedStateDisputer == tx.sender
            && after.dispute.votes == c.dispute.votes + tx.call.votes
            && after.dispute.finalizedState == tx.call.finalized
            && after.dispute.foldedTransactionCnt == c.dispute.foldedTransactionCnt
            && after.dispute.creationTimestamp == c.dispute.creationTimestamp
            && after.dispute.deadlineTimestamp == c.now + c.times.challenge
            && ((forall proof <- tx.call.proofs :: IsSlashing(proof)) ==> |after.dispute.slashed| > |c.dispute.slashed|)
  {
    var call, each := tx.call, ApplyEach(env, c, tx.sender, c.dispute, tx.call.proofs);
    ChallengeApplies(env, c, tx);
    EachKeeps(env, c, tx.sender, c.dispute, call.proofs);
    SettlingKeeps(env, Challenged(c, tx.sender, each.value.dispute, call.votes, call.finalized, call.latest));
    ChallengeOpensFork(env, c, tx);
    ChallengeOnDispute(env, c, tx);
    SetStateKeeps(c, Execute(env, c, tx).value.dispute);
  }

  lemma ChallengeOnDispute(env: Env, c: Chain, tx: Tx)
    requires tx.call.Challenge? && Execute(env, c, tx).Ok?
    ensures c.dispute.channelId != 0 && c.now < c.dispute.deadlineTimestamp
    ensures tx.call.forkCnt == c.dispute.forkCnt && tx.call.challengeCnt == c.dispute.challengeCnt
  {}

  /** The dispute that an accepted call hands over for settling. */
  lemma SettledDispute(env: Env, c: Chain, tx: Tx) returns (d: Dispute)
    requires Consistent(c) && (tx.call.Create? || tx.call.Challenge?) && Execute(env, c, tx).Ok?
    ensures var after := Execute(env, c, tx).value;
            && ApplyToLatestState(env, d) == Ok(after.dispute)
            && after.StateOf(after.latestFork) == after.dispute.latestState
    ensures Distinct(d.slashed) && tx.sender !in d.slashed && d.leaves == [] && d.latestState == tx.call.latest
  {
    var each := ApplyEach(env, c, tx.sender, Handed(env, c, tx), tx.call.proofs);
    if tx.call.Create? {
      CreateApplies(env, c, tx);
      CreateOpensFork(env, c, tx);
      d := each.value.dispute;
    } else {
      ChallengeApplies(env, c, tx);
      ChallengeOpensFork(env, c, tx);
      d := Challenged(c, tx.sender, each.value.dispute, tx.call.votes, tx.call.finalized, tx.call.latest);
    }
    EachKeeps(env, c, tx.sender, Handed(env, c, tx), tx.call.proofs);
  }

  lemma PostKeeps(env: Env, c: Chain, tx: Tx)
    requires Consistent(c) && tx.call.Post? && Execute(env, c, tx).Ok?
    ensures var after := Execute(env, c, tx).value;
            Consistent(after) && Extends(c, after) && after.latestFork == c.latestFork
  {
    var after, signed := Execute(env, c, tx).value, tx.call.signed;
    forall fork: nat, key: (nat, Address)
      ensures after.DataOf(fork).TimeOf(key) <= c.now && c.DataOf(fork).TimeOf(key) <= after.DataOf(fork).TimeOf(key)
    {
      assert c.DataOf(fork).TimeOf(key) <= c.now;
    }
    forall fork: nat ensures DataExtends(c.DataOf(fork), after.DataOf(fork)) {}
  }

  lemma NextKeeps(env: Env, c: Chain, tx: Tx)
    requires Consistent(c)
    ensures Consistent(Next(env, c, tx)) && Extends(c, Next(env, c, tx))
    ensures Next(env, c, tx).latestFork == c.latestFork || OpensFork(c, Next(env, c, tx))
  {
    if Execute(env, c, tx).Ok? {
      match tx.call
      case Tick(_) =>
        var after := Next(env, c, tx);
        assert forall fork: nat :: after.DataOf(fork) == c.DataOf(fork);
      case Post(_) => PostKeeps(env, c, tx);
      case Create(_, _, _, _, _, _, _) => CreateKeeps(env, c, tx);
      case Challenge(_, _, _, _, _, _) => ChallengeKeeps(env, c, tx);
    }
  }

  // ---------- whole runs ----------

  lemma ExtendsTransitive(a: Chain, b: Chain, c: Chain)
    requires Extends(a, b) && Extends(b, c)
    ensures Extends(a, c)
  {}

  lemma {:induction false} RunKeeps(env: Env, c: Chain, txs: seq<Tx>)
    requires Consistent(c)
    ensures Consistent(Run(env, c, txs)) && Extends(c, Run(env, c, txs))
  {
    if txs != [] {
      var last := |txs| - 1;
      RunKeeps(env, c, txs[..last]);
      NextKeeps(env, Run(env, c, txs[..last]), txs[last]);
      ExtendsTransitive(c, Run(env, c, txs[..last]), Run(env, c, txs));
    }
  }

  /** Fork bookkeeping, for every run from an opened channel. */
  lemma ForkBookkeeping(env: Env, channelId: ChannelId, times: Times, now: nat, genesis: Bytes, txs: seq<Tx>)
    requires channelId != 0
    ensures var c := Run(env, Opened(channelId, times, now, genesis), txs);
            && (forall fork: nat :: fork in c.states <==> fork <= c.latestFork)
            && c.states[0] == genesis
            && (forall i: nat, j: nat :: i <= j <= c.latestFork ==> c.GenesisTime(i) <= c.GenesisTime(j) <= c.now)
            && (c.dispute.channelId != 0 ==>
                  && c.latestFork == c.dispute.forkCnt + 1 + c.dispute.challengeCnt
                  && c.StateOf(c.latestFork) == c.dispute.latestState)
  {
    var start := Opened(channelId, times, now, genesis);
    assert forall fork: nat, key: (nat, Address) :: start.DataOf(fork).TimeOf(key) == 0;
    RunKeeps(env, start, txs);
    assert start.StateOf(0) == genesis;
  }

  // ---------- how long a dispute lasts ----------

  predicate IsChallenge(env: Env, c: Chain, tx: Tx) { tx.call.Challenge? && Execute(env, c, tx).Ok? }

  /** How many challenges of the run are accepted. */
  function Challenges(env: Env, c: Chain, txs: seq<Tx>): nat {
    if txs == [] then 0
    else
      var last := |txs| - 1;
      Challenges(env, c, txs[..last]) + (if IsChallenge(env, Run(env, c, txs[..last]), txs[last]) then 1 else 0)
  }

  /** The same dispute after `n` challenges; without any it is unchanged. */
  predicate Lasts(d: Dispute, later: Dispute, n: nat) {
    && later.channelId == d.channelId && later.forkCnt == d.forkCnt && later.participants == d.participants
    && later.creationTimestamp == d.creationTimestamp && later.challengeCnt == d.challengeCnt + n
    && later.deadlineTimestamp >= d.deadlineTimestamp
    && (n == 0 ==> later == d)
  }

  lemma ChallengeLasts(env: Env, c: Chain, tx: Tx)
    requires Consistent(c) && IsChallenge(env, c, tx)
    ensures Lasts(c.dispute, Execute(env, c, tx).value.dispute, 1)
  {
    ChallengeKeeps(env, c, tx);
    ChallengeOnDispute(env, c, tx);
  }

  lemma StepLasts(env: Env, c: Chain, tx: Tx)
    requires Consistent(c) && c.dispute.channelId != 0 && c.now <= c.dispute.deadlineTimestamp
    ensures Lasts(c.dispute, Next(env, c, tx).dispute, if IsChallenge(env, c, tx) then 1 else 0)
  {
    if Execute(env, c, tx).Ok? {
      match tx.call
      case Create(_, _, _, _, _, _, _) => CreateOnLatest(env, c, tx);
      case Challenge(_, _, _, _, _, _) => ChallengeLasts(env, c, tx);
      case Post(_) =>
      case Tick(_) =>
    }
  }

  lemma RunStep(env: Env, c: Chain, txs: seq<Tx>)
    requires txs != [] && Consistent(c)
    ensures var before := Run(env, c, txs[..|txs| - 1]);
            && Consistent(before) && Run(env, c, txs) == Next(env, before, txs[|txs| - 1])
            && c.now <= before.now <= Run(env, c, txs).now && before.times == c.times
  {
    RunKeeps(env, c, txs[..|txs| - 1]);
    NextKeeps(env, Run(env, c, txs[..|txs| - 1]), txs[|txs| - 1]);
  }

  /** Until its deadline has passed a dispute stays over its fork, whatever is called, and only accepted challenges
      change it at all. */
  lemma {:induction false} DisputeLasts(env: Env, c: Chain, txs: seq<Tx>)
    requires Consistent(c) && c.dispute.channelId != 0
    requires Run(env, c, txs).now <= c.dispute.deadlineTimestamp
    ensures Lasts(c.dispute, Run(env, c, txs).dispute, Challenges(env, c, txs))
  {
    if txs != [] {
      RunStep(env, c, txs);
      DisputeLasts(env, c, txs[..|txs| - 1]);
      StepLasts(env, Run(env, c, txs[..|txs| - 1]), txs[|txs| - 1]);
    }
  }

  /** From its deadline on no challenge is accepted any more; at the deadline itself no new dispute either. */
  lemma DisputeIsOver(env: Env, c: Chain, tx: Tx)
    requires Consistent(c) && c.dispute.channelId != 0 && c.dispute.deadlineTimestamp <= c.now
    ensures tx.call.Challenge? ==> Execute(env, c, tx) == Revert
    ensures tx.call.Create? && c.now == c.dispute.deadlineTimestamp ==> Execute(env, c, tx) == Revert
  {
    if tx.call.Challenge? && Execute(env, c, tx).Ok? { ChallengeOnDispute(env, c, tx); }
    if tx.call.Create? && Execute(env, c, tx).Ok? { CreateOnLatest(env, c, tx); }
  }

  // ---------- bounded challenging ----------

  predicate IsSlashingChallenge(env: Env, c: Chain, tx: Tx) {
    tx.call.Challenge? && (forall proof <- tx.call.proofs :: IsSlashing(proof)) && Execute(env, c, tx).Ok?
  }

  /** How many calls of the run are successful challenges that carry slashing evidence only. */
  function SlashingChallenges(env: Env, c: Chain, txs: seq<Tx>): nat {
    if txs == [] then 0
    else
      var last := |txs| - 1;
      SlashingChallenges(env, c, txs[..last])
      + (if IsSlashingChallenge(env, Run(env, c, txs[..last]), txs[last]) then 1 else 0)
  }

  lemma {:induction false} ChallengesGrowSlashed(env: Env, c: Chain, txs: seq<Tx>)
    requires Consistent(c)
    ensures |Run(env, c, txs).dispute.slashed| >= |c.dispute.slashed| + SlashingChallenges(env, c, txs)
  {
    if txs != [] {
      var last := |txs| - 1;
      var before := Run(env, c, txs[..last]);
      ChallengesGrowSlashed(env, c, txs[..last]);
      RunKeeps(env, c, txs[..last]);
      NextKeeps(env, before, txs[last]);
      if IsSlashingChallenge(env, before, txs[last]) { ChallengeKeeps(env, before, txs[last]); }
    }
  }

  /** Everyone the evidence of one call can slash; a new dispute keeps the slashed list of the last one. */
  function AccusedInCall(env: Env, c: Chain, tx: Tx): set<Address> {
    match tx.call
    case Create(_, _, _, _, _, _, proofs) => AccusedByAll(env, c, tx.sender, Handed(env, c, tx), proofs)
    case Challenge(_, _, proofs, _, _, _) => AccusedByAll(env, c, tx.sender, Handed(env, c, tx), proofs)
    case _ => {}
  }

  lemma CreateNames(env: Env, c: Chain, tx: Tx)
    requires tx.call.Create? && Execute(env, c, tx).Ok?
    ensures SetOf(Execute(env, c, tx).value.dispute.slashed) <= SetOf(c.dispute.slashed) + AccusedInCall(env, c, tx)
  {
    CreateApplies(env, c, tx);
    EachKeeps(env, c, tx.sender, Handed(env, c, tx), tx.call.proofs);
  }

  lemma ChallengeNames(env: Env, c: Chain, tx: Tx)
    requires tx.call.Challenge? && Execute(env, c, tx).Ok?
    ensures SetOf(Execute(env, c, tx).value.dispute.slashed) <= SetOf(c.dispute.slashed) + AccusedInCall(env, c, tx)
  {
    ChallengeApplies(env, c, tx);
    EachKeeps(env, c, tx.sender, Handed(env, c, tx), tx.call.proofs);
  }

  lemma CallNames(env: Env, c: Chain, tx: Tx)
    ensures SetOf(Next(env, c, tx).dispute.slashed) <= SetOf(c.dispute.slashed) + AccusedInCall(env, c, tx)
  {
    if Execute(env, c, tx).Ok? {
      if tx.call.Create? { CreateNames(env, c, tx); }
      if tx.call.Challenge? { ChallengeNames(env, c, tx); }
    }
  }

  /** The evidence of every call of the run names only addresses of `named`. */
  predicate NamesOnly(env: Env, c: Chain, txs: seq<Tx>, named: set<Address>) {
    txs == [] ||
    (NamesOnly(env, c, txs[..|txs| - 1], named) &&
     AccusedInCall(env, Run(env, c, txs[..|txs| - 1]), txs[|txs| - 1]) <= named)
  }

  lemma {:induction false} SlashedAreNamed(env: Env, c: Chain, txs: seq<Tx>, named: set<Address>)
    requires SetOf(c.dispute.slashed) <= named && NamesOnly(env, c, txs, named)
    ensures SetOf(Run(env, c, txs).dispute.slashed) <= named
  {
    if txs != [] {
      SlashedAreNamed(env, c, txs[..|txs| - 1], named);
      CallNames(env, Run(env, c, txs[..|txs| - 1]), txs[|txs| - 1]);
    }
  }

  /** However the calls interleave, and across any number of disputes, there are no more successful
      slashing challenges than addresses that the evidence can still name. */
  lemma BoundedChallenging(env: Env, c: Chain, txs: seq<Tx>, named: set<Address>)
    requires Consistent(c) && SetOf(c.dispute.slashed) <= named && NamesOnly(env, c, txs, named)
    ensures SlashingChallenges(env, c, txs) + |c.dispute.slashed| <= |named|
  {
    var after := Run(env, c, txs);
    ChallengesGrowSlashed(env, c, txs);
    SlashedAreNamed(env, c, txs, named);
    RunKeeps(env, c, txs);
    DistinctCardinality(after.dispute.slashed);
    SubsetCardinality(SetOf(after.dispute.slashed), named);
  }
}
