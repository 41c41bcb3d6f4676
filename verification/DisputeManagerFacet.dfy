/** DisputeManagerFacet.sol, StateChannelCommon.sol and the loops of AStateChannelManagerProxy.sol, as they change
    storage: each method is proved against the rule it carries out. A reverted call's writes are discarded by
    `Transact`, as the EVM discards them. */
module DisputeManagerFacet {
  import opened Types
  import opened Storage
  import opened StateMachine
  import opened DisputeRules
  import Lib = StateChannelUtilLibrary
  import Runs = DisputeRuns

  // ---------- what the loops add up ----------

  /** The threshold addresses among the signers of one block. */
  function SignersIn(env: Env, block: Block, signatures: seq<Signature>, threshold: seq<Address>): set<Address> {
    set a <- threshold | env.Signs(block, signatures, a)
  }

  lemma SignersStep(env: Env, block: Block, signatures: seq<Signature>, threshold: seq<Address>, j: nat)
    requires j < |signatures| && env.Signer(block, signatures[j]).Some?
    ensures var signer := env.Signer(block, signatures[j]).value;
            && SignersIn(env, block, signatures[..j + 1], threshold) ==
               SignersIn(env, block, signatures[..j], threshold) + (if signer in threshold then {signer} else {})
            && (forall a :: env.Signs(block, signatures[..j + 1], a) <==>
                env.Signs(block, signatures[..j], a) || a == signer)
            && (env.AllRecover(block, signatures[..j + 1]) <==> env.AllRecover(block, signatures[..j]))
  {
    assert signatures[..j + 1] == signatures[..j] + [signatures[j]];
    forall a
      ensures env.Signs(block, signatures[..j + 1], a) <==>
              env.Signs(block, signatures[..j], a) || a == env.Signer(block, signatures[j]).value
    {
      if env.Signs(block, signatures[..j], a) {
        var s :| s in signatures[..j] && env.Signer(block, s) == Some(a);
        assert s in signatures[..j + 1];
      }
      assert signatures[j] in signatures[..j + 1];
    }
  }

  lemma VotersStep(env: Env, votes: seq<ConfirmedBlock>, threshold: seq<Address>, i: nat)
    requires i < |votes|
    ensures Voters(env, votes[..i + 1], threshold) ==
            Voters(env, votes[..i], threshold) + SignersIn(env, votes[i].block, votes[i].signatures, threshold)
  {}

  /** The first `count` cells hold exactly `who`, each once. */
  ghost predicate Holds(cells: array<Address>, count: nat, who: set<Address>)
    reads cells
  {
    count <= cells.Length && Distinct(cells[..count]) && SetOf(cells[..count]) == who
  }

  lemma HoldsCounts(cells: array<Address>, count: nat, who: set<Address>)
    requires Holds(cells, count, who)
    ensures |who| == count
  {
    DistinctCardinality(cells[..count]);
  }

  method Insert(a: Address, cells: array<Address>, count: nat, threshold: seq<Address>, ghost who: set<Address>)
    returns (newCount: nat)
    requires cells.Length == |threshold| && Holds(cells, count, who) && who <= SetOf(threshold)
    modifies cells
    ensures Holds(cells, newCount, who + (if a in threshold then {a} else {}))
  {
    newCount := Lib.TryInsertAddressInThresholdSet(a, cells, count, threshold);
  }

  /** One inner loop of isFinalizedAndLatest: the signers of a vote go into the set. */
  method CollectSigners(env: Env, vote: ConfirmedBlock, threshold: seq<Address>, cells: array<Address>, count: nat,
                        ghost who: set<Address>)
    returns (r: Outcome<(bool, nat)>)
    requires cells.Length == |threshold| && Holds(cells, count, who) && who <= SetOf(threshold)
    modifies cells
    ensures r.Ok? <==> env.AllRecover(vote.block, vote.signatures)
    ensures r.Ok? ==>
              && r.value.0 == env.Signs(vote.block, vote.signatures, vote.block.Author())
              && Holds(cells, r.value.1, who + SignersIn(env, vote.block, vote.signatures, threshold))
  {
    var isSigned, newCount: nat := false, count;
    for j := 0 to |vote.signatures|
      invariant Holds(cells, newCount, who + SignersIn(env, vote.block, vote.signatures[..j], threshold))
      invariant env.AllRecover(vote.block, vote.signatures[..j])
      invariant isSigned == env.Signs(vote.block, vote.signatures[..j], vote.block.Author())
    {
      var signer := env.Signer(vote.block, vote.signatures[j]);
      if signer.None? {
        assert vote.signatures[j] in vote.signatures;
        return Revert;
      }
      SignersStep(env, vote.block, vote.signatures, threshold, j);
      if signer.value == vote.block.Author() { isSigned := true; }
      newCount := Insert(signer.value, cells, newCount, threshold,
                         who + SignersIn(env, vote.block, vote.signatures[..j], threshold));
    }
    assert vote.signatures[..|vote.signatures|] == vote.signatures;
    return Ok((isSigned, newCount));
  }

  /** What one vote must be by itself. */
  method ReadVote(env: Env, channelId: ChannelId, forkCnt: nat, vote: ConfirmedBlock, threshold: seq<Address>,
                  cells: array<Address>, count: nat, ghost who: set<Address>)
    returns (r: Outcome<nat>)
    requires cells.Length == |threshold| && Holds(cells, count, who) && who <= SetOf(threshold)
    modifies cells
    ensures r.Ok? <==> WellSigned(env, channelId, forkCnt, vote)
    ensures r.Ok? ==> Holds(cells, r.value, who + SignersIn(env, vote.block, vote.signatures, threshold))
  {
    if vote.block.ChannelOf() != channelId || vote.block.Fork() != forkCnt { return Revert; }
    var signed := CollectSigners(env, vote, threshold, cells, count, who);
    if signed.Revert? || !signed.value.0 { return Revert; }
    return Ok(signed.value.1);
  }

  /** The link of one vote to what precedes it. */
  method CheckLink(env: Env, isGenesis: bool, finalized: Bytes, latest: Bytes, votes: seq<ConfirmedBlock>, i: nat,
                   previousStateHash: Hash)
    returns (ok: bool)
    requires i < |votes| && previousStateHash == if i == 0 then env.keccak(finalized) else votes[i - 1].block.stateHash
    ensures ok == Linked(env, isGenesis, finalized, latest, votes, i)
  {
    var block := votes[i].block;
    if i == 0 && !isGenesis {
      if previousStateHash != block.stateHash { return false; }
    } else if previousStateHash != block.previousStateHash {
      return false;
    }
    return !(i == |votes| - 1) || block.stateHash == env.keccak(latest);
  }

  /** The outer loop: every vote is read and linked, and the signers are counted. */
  method CheckVotes(env: Env, channelId: ChannelId, forkCnt: nat, isGenesis: bool, finalized: Bytes, latest: Bytes,
                    votes: seq<ConfirmedBlock>, threshold: seq<Address>)
    returns (r: Outcome<nat>)
    ensures r.Ok? <==>
            (&& (forall i :: 0 <= i < |votes| ==> WellSigned(env, channelId, forkCnt, votes[i]))
             && (forall i :: 0 <= i < |votes| ==> Linked(env, isGenesis, finalized, latest, votes, i)))
    ensures r.Ok? ==> r.value == |Voters(env, votes, threshold)|
  {
    var previousStateHash := env.keccak(finalized);
    var cells, count: nat := new Address[|threshold|], 0;
    ghost var voted: set<Address> := {};
    for i := 0 to |votes|
      invariant Holds(cells, count, voted) && voted == Voters(env, votes[..i], threshold)
      invariant previousStateHash == if i == 0 then env.keccak(finalized) else votes[i - 1].block.stateHash
      invariant forall k :: 0 <= k < i ==> WellSigned(env, channelId, forkCnt, votes[k])
      invariant forall k :: 0 <= k < i ==> Linked(env, isGenesis, finalized, latest, votes, k)
    {
      var vote := votes[i];
      count :- ReadVote(env, channelId, forkCnt, vote, threshold, cells, count, voted);
      var linked := CheckLink(env, isGenesis, finalized, latest, votes, i, previousStateHash);
      if !linked { return Revert; }
      previousStateHash := vote.block.stateHash;
      VotersStep(env, votes, threshold, i);
      voted := voted + SignersIn(env, vote.block, vote.signatures, threshold);
    }
    assert votes[..|votes|] == votes;
    HoldsCounts(cells, count, voted);
    return Ok(count);
  }

  /** A prefix of the evidence that reverts makes all of it revert. */
  lemma {:induction false} PairsRevert(env: Env, d: Dispute, pairs: seq<(SignedBlock, SignedBlock)>, n: nat)
    requires n <= |pairs| && ApplyDoubleSign(env, d, pairs[..n]) == Revert
    ensures ApplyDoubleSign(env, d, pairs) == Revert
    decreases |pairs|
  {
    if n == |pairs| {
      assert pairs[..n] == pairs;
    } else {
      assert pairs[..|pairs| - 1][..n] == pairs[..n];
      PairsRevert(env, d, pairs[..|pairs| - 1], n);
    }
  }

  lemma {:induction false} EachReverts(env: Env, c: Chain, sender: Address, d: Dispute, proofs: seq<Proof>, n: nat)
    requires n <= |proofs| && ApplyEach(env, c, sender, d, proofs[..n]) == Revert
    ensures ApplyEach(env, c, sender, d, proofs) == Revert
    decreases |proofs|
  {
    if n == |proofs| {
      assert proofs[..n] == proofs;
    } else {
      assert proofs[..|proofs| - 1][..n] == proofs[..n];
      EachReverts(env, c, sender, d, proofs[..|proofs| - 1], n);
    }
  }

  lemma {:induction false} JoinsRevert(env: Env, state: Bytes, joins: seq<JoinChannel>, n: nat)
    requires n <= |joins| && ApplyJoins(env, state, joins[..n]) == Revert
    ensures ApplyJoins(env, state, joins) == Revert
    decreases |joins|
  {
    if n == |joins| {
      assert joins[..n] == joins;
    } else {
      assert joins[..|joins| - 1][..n] == joins[..n];
      JoinsRevert(env, state, joins[..|joins| - 1], n);
    }
  }

  function Remover(env: Env, slashing: bool): (Bytes, Address) -> Outcome<Removal> {
    if slashing then env.slash else env.remove
  }

  lemma {:induction false} RemovalsRevert(remove: (Bytes, Address) -> Outcome<Removal>, state: Bytes,
                                          gone: seq<Address>, n: nat)
    requires n <= |gone| && ApplyRemovals(remove, state, gone[..n]) == Revert
    ensures ApplyRemovals(remove, state, gone) == Revert
    decreases |gone|
  {
    if n == |gone| {
      assert gone[..n] == gone;
    } else {
      assert gone[..|gone| - 1][..n] == gone[..n];
      RemovalsRevert(remove, state, gone[..|gone| - 1], n);
    }
  }

  const NO_BLOCK := Block(Transaction(Header(0, ZERO_ADDRESS, 0, 0, 0), []), 0, 0)

  class DisputeManager {
    const env: Env
    const channelId: ChannelId
    const times: Times
    const machine: Machine
    var now: nat
    var latestFork: nat
    var encodedStates: map<nat, Bytes>
    var genesisTimestamps: map<nat, nat>
    var postedBlockCalldata: map<nat, ForkData>
    var dispute: Dispute

    function View(): Chain
      reads this
    {
      Chain(channelId, times, now, latestFork, encodedStates, genesisTimestamps, postedBlockCalldata, dispute)
    }

    /** A channel just opened on `genesis`. */
    constructor (env: Env, machine: Machine, channelId: ChannelId, times: Times, now: nat, genesis: Bytes)
      ensures this.env == env && this.machine == machine && View() == Runs.Opened(channelId, times, now, genesis)
    {
      this.env, this.machine, this.channelId, this.times, this.now := env, machine, channelId, times, now;
      latestFork, encodedStates, genesisTimestamps := 0, map[0 := genesis], map[0 := now];
      postedBlockCalldata, dispute := map[], NO_DISPUTE;
    }

    /** StateChannelCommon.sol:83-107. */
    method GetChainLatestBlockTimestamp(fork: nat, maxHeight: nat) returns (latest: nat)
      ensures latest == View().LatestPosted(fork, maxHeight)
    {
      var data := View().DataOf(fork);
      latest := 0;
      for i := 0 to |data.keys|
        invariant latest == data.Latest(maxHeight, i)
      {
        var key := data.keys[i];
        if data.TimeOf(key) > latest && key.0 <= maxHeight { latest := data.TimeOf(key); }
      }
    }

    /** Lines 846-935. */
    method IsFinalizedAndLatest(forkCnt: nat, finalized: Bytes, latest: Bytes, votes: seq<ConfirmedBlock>,
                                threshold: seq<Address>)
      returns (r: Outcome<bool>)
      ensures r == FinalizedAndLatest(env, View(), forkCnt, finalized, latest, votes, threshold)
    {
      var isGenesis := View().IsGenesisState(env, forkCnt, finalized);
      var countThreshold :- CheckVotes(env, channelId, forkCnt, isGenesis, finalized, latest, votes, threshold);
      return Ok(isGenesis || countThreshold == |threshold|);
    }

    // ---------- evidence ----------

    /** Evidence is judged on the chain as the call found it; only the dispute has changed since. */
    ghost predicate Since(c: Chain)
      reads this
    {
      c == View().(dispute := c.dispute)
    }

    /** Lines 813-822. */
    method InsertIfNotExist(a: Address) returns (inserted: bool)
      modifies `dispute
      ensures Applied(dispute, inserted) == Slash(old(dispute), a)
    {
      var slashed := dispute.slashed;
      for i := 0 to |slashed|
        invariant a !in slashed[..i]
      {
        if slashed[i] == a { return false; }
      }
      dispute := dispute.(slashed := slashed + [a]);
      return true;
    }

    /** Lines 803-811. */
    method CancelFold(height: nat)
      modifies `dispute
      ensures dispute == TryCancelFold(old(dispute), height)
    {
      if height < dispute.foldedTransactionCnt {
        dispute := dispute.(timedout := ZERO_ADDRESS, timeoutDisputer := ZERO_ADDRESS);
      }
    }

    /** Lines 428-461. */
    method ApplyFoldRechallengeProof(block: Block, signatures: seq<Signature>) returns (r: Outcome<bool>)
      modifies `dispute
      ensures match ApplyFoldRechallenge(env, old(dispute), block, signatures)
              case Revert => r == Revert
              case Ok(after) => r == Ok(after.success) && dispute == after.dispute
    {
      if !OnDispute(dispute, block) || block.Height() != dispute.foldedTransactionCnt { return Revert; }
      var succeeds :- Lib.VerifyThresholdSigned(env, dispute.participants, env.blockHash(block), signatures);
      if !succeeds { return Revert; }
      dispute := dispute.(timedout := ZERO_ADDRESS);
      var inserted := InsertIfNotExist(dispute.timeoutDisputer);
      return Ok(inserted);
    }

    /** One round of the loop of lines 468-517. */
    method ApplyPair(pair: (SignedBlock, SignedBlock), success: bool) returns (r: Outcome<bool>)
      modifies `dispute
      ensures match ApplyDoubleSignPair(env, Applied(old(dispute), success), pair)
              case Revert => r == Revert
              case Ok(after) => r == Ok(after.success) && dispute == after.dispute
    {
      var block1, block2 := pair.0.block, pair.1.block;
      if !OnDispute(dispute, block1) || !OnDispute(dispute, block2)
         || block1.Height() != block2.Height()
      {
        return Revert;
      }
      if env.blockHash(block1) == env.blockHash(block2) { return Revert; }
      var signer1 :- SignerOf(env, pair.0);
      var signer2 :- SignerOf(env, pair.1);
      if signer1 != signer2 { return Revert; }
      var inserted := InsertIfNotExist(signer1);
      if inserted || success { CancelFold(block1.Height()); }
      return Ok(inserted || success);
    }

    method ApplyDoubleSignProof(pairs: seq<(SignedBlock, SignedBlock)>) returns (r: Outcome<bool>)
      modifies `dispute
      ensures match ApplyDoubleSign(env, old(dispute), pairs)
              case Revert => r == Revert
              case Ok(after) => r == Ok(after.success) && dispute == after.dispute
    {
      var success := false;
      for i := 0 to |pairs|
        invariant ApplyDoubleSign(env, old(dispute), pairs[..i]) == Ok(Applied(dispute, success))
      {
        assert pairs[..i + 1][..i] == pairs[..i];
        var applied := ApplyPair(pairs[i], success);
        if applied.Revert? {
          PairsRevert(env, old(dispute), pairs, i + 1);
          return Revert;
        }
        success := applied.value;
      }
      assert pairs[..|pairs|] == pairs;
      return Ok(success);
    }

    /** Lines 947-968. */
    method IsGoodTimestamp(previousTimestamp: nat, block: Block) returns (r: Outcome<bool>)
      ensures r == GoodTimestamp(View(), previousTimestamp, block)
    {
      var latestChainTimestamp := GetChainLatestBlockTimestamp(block.Fork(), block.Height());
      var referenceTime := if latestChainTimestamp > previousTimestamp then latestChainTimestamp else previousTimestamp;
      if block.Timestamp() < previousTimestamp { return Ok(false); }
      if referenceTime + times.p2p > UINT_MAX { return Revert; }
      return Ok(!(block.Timestamp() > referenceTime + times.p2p));
    }

    /** AStateChannelManagerProxy.sol:375-387. */
    method ExecuteStateTransitionOnState(encodedState: Bytes, tx: Transaction) returns (success: bool, state: Bytes)
      requires machine.env == env
      modifies machine
      ensures success <==> env.step(encodedState, tx).Some?
      ensures state == if success then env.step(encodedState, tx).value else encodedState
    {
      machine.SetState(encodedState);
      success := machine.StateTransition(tx);
      state := machine.state;
    }

    /** Lines 591-617. */
    method CheckBlock(ghost c: Chain, previousTimestamp: nat, preState: Bytes, block: Block) returns (r: Outcome<bool>)
      requires machine.env == env && Since(c)
      modifies machine
      ensures r == IsCorrect(env, c, previousTimestamp, preState, block)
    {
      var success :- IsGoodTimestamp(previousTimestamp, block);
      if !success { return Ok(false); }
      var executed;
      success, executed := ExecuteStateTransitionOnState(preState, block.transaction);
      return Ok(success && block.stateHash == env.keccak(executed));
    }

    /** Lines 558-589. */
    method CheckLinks(ghost c: Chain, block1: Block, block2: Block, preState: Bytes) returns (r: Outcome<nat>)
      requires Since(c)
      ensures r == PreviousTimestamp(env, c, dispute, block1, block2, preState)
    {
      if View().IsGenesisState(env, dispute.forkCnt, preState) {
        if block2.previousStateHash != env.keccak(preState) { return Revert; }
        return Ok(View().GenesisTime(dispute.forkCnt));
      }
      if block2.previousStateHash != block1.stateHash { return Revert; }
      if block1.stateHash != env.keccak(preState) { return Revert; }
      return Ok(block1.Timestamp());
    }

    /** Lines 607-621. */
    method PunishAuthor(a: Address, height: nat) returns (inserted: bool)
      modifies `dispute
      ensures Applied(dispute, inserted) == Punish(old(dispute), a, height)
    {
      inserted := InsertIfNotExist(a);
      if inserted { CancelFold(height); }
    }

    /** Lines 522-622. */
    method ApplyIncorrectDataProof(ghost c: Chain, block1: SignedBlock, block2: SignedBlock, preState: Bytes)
      returns (r: Outcome<bool>)
      requires machine.env == env && Since(c)
      modifies `dispute, machine
      ensures match ApplyIncorrectData(env, c, old(dispute), block1, block2, preState)
              case Revert => r == Revert
              case Ok(after) => r == Ok(after.success) && dispute == after.dispute
    {
      var signer1 :- SignerOf(env, block1);
      var signer2 :- SignerOf(env, block2);
      if signer1 != block1.block.Author() || signer2 != block2.block.Author() { return Revert; }
      if !OnDispute(dispute, block1.block) || !OnDispute(dispute, block2.block) { return Revert; }
      var previousTimestamp :- CheckLinks(c, block1.block, block2.block, preState);
      var correct :- CheckBlock(c, previousTimestamp, preState, block2.block);
      if correct { return Ok(false); }
      var challengeSuccess := PunishAuthor(block2.block.Author(), block1.block.Height());
      return Ok(challengeSuccess);
    }

    /** Lines 624-661. */
    method ApplyNewerStateProof(block: Block, confirmation: Signature) returns (r: Outcome<bool>)
      modifies `dispute
      ensures match ApplyNewerState(env, old(dispute), block, confirmation)
              case Revert => r == Revert
              case Ok(after) => r == Ok(after.success) && dispute == after.dispute
    {
      if !OnDispute(dispute, block) { return Revert; }
      var signer :- SignerOf(env, SignedBlock(block, confirmation));
      if signer != dispute.postedStateDisputer || dispute.votes == [] { return Revert; }
      var latestKnown := dispute.votes[|dispute.votes| - 1].block;
      if block.Height() < latestKnown.Height() { return Revert; }
      var inserted := InsertIfNotExist(dispute.postedStateDisputer);
      return Ok(inserted);
    }

    /** Lines 663-703. */
    method ApplyFoldPriorBlockProof(ghost c: Chain, sender: Address, height: nat) returns (r: Outcome<bool>)
      requires Since(c)
      modifies `dispute
      ensures match ApplyFoldPriorBlock(c, sender, old(dispute), height)
              case Revert => r == Revert
              case Ok(after) => r == Ok(after.success) && dispute == after.dispute
    {
      var votes, inVotes, last := dispute.votes, false, NO_BLOCK;
      for i := 0 to |votes|
        invariant inVotes <==> exists vote <- votes[..i] :: vote.block.Height() == height
        invariant i > 0 ==> last == votes[i - 1].block
      {
        last := votes[i].block;
        assert votes[..i + 1] == votes[..i] + [votes[i]];
        if last.Height() == height { inVotes := true; }
      }
      assert votes[..|votes|] == votes;
      if !inVotes || height >= dispute.foldedTransactionCnt { return Revert; }
      var posted := View().DataOf(dispute.forkCnt).TimeOf((height, last.Author()));
      if posted != 0 && posted <= dispute.creationTimestamp { return Revert; }
      dispute := dispute.(timedout := last.Author(), timeoutDisputer := sender);
      return Ok(true);
    }

    /** Lines 705-746. */
    method ApplyBlockTooFarInFutureProof(ghost c: Chain, early: SignedBlock) returns (r: Outcome<bool>)
      requires Since(c)
      modifies `dispute
      ensures match ApplyBlockTooFarInFuture(env, c, old(dispute), early)
              case Revert => r == Revert
              case Ok(after) => r == Ok(after.success) && dispute == after.dispute
    {
      if !OnDispute(dispute, early.block) { return Revert; }
      var signer :- SignerOf(env, early);
      if signer != early.block.Author() { return Revert; }
      var isParticipant := Lib.IsAddressInArray(dispute.participants, signer);
      if !isParticipant || early.block.Timestamp() <= now { return Revert; }
      var inserted := InsertIfNotExist(early.block.Author());
      return Ok(inserted);
    }

    /** Lines 835-844. */
    method InsertJoinChannelIfNotExist(jc: JoinChannel) returns (inserted: bool)
      modifies `dispute
      ensures inserted <==> forall other <- old(dispute.joins) :: other.participant != jc.participant
      ensures dispute == if inserted then old(dispute).(joins := old(dispute.joins) + [jc]) else old(dispute)
    {
      var joins := dispute.joins;
      for i := 0 to |joins|
        invariant forall other <- joins[..i] :: other.participant != jc.participant
      {
        if joins[i].participant == jc.participant { return false; }
      }
      dispute := dispute.(joins := joins + [jc]);
      return true;
    }

    /** Lines 748-801. */
    method ApplyJoinChannelProof(ghost c: Chain, sender: Address, joiner: SignedJoinChannel,
                                 confirmations: seq<Signature>)
      returns (r: Outcome<bool>)
      requires Since(c)
      modifies `dispute
      ensures match ApplyJoin(env, c, sender, old(dispute), joiner, confirmations)
              case Revert => r == Revert
              case Ok(after) => r == Ok(after.success) && dispute == after.dispute
    {
      var everyone :- Lib.VerifyThresholdSigned(env, dispute.participants, env.signedJoinHash(joiner), confirmations);
      if !everyone { return Revert; }
      var jc := joiner.joinChannel;
      var self :- Lib.VerifyThresholdSigned(env, [jc.participant], env.joinHash(jc), [joiner.signature]);
      if !self || jc.channelId != dispute.channelId || sender != env.nextToWrite(dispute.latestState) { return Revert; }
      var isParticipant := Lib.IsAddressInArray(dispute.participants, jc.participant);
      if isParticipant || now <= jc.deadlineTimestamp { return Revert; }
      var inserted := InsertJoinChannelIfNotExist(jc);
      if !inserted || !env.addComposable(jc) { return Revert; }
      return Ok(true);
    }

    method ApplyOne(ghost c: Chain, sender: Address, proof: Proof) returns (r: Outcome<bool>)
      requires machine.env == env && Since(c)
      modifies `dispute, machine
      ensures match ApplyProof(env, c, sender, old(dispute), proof)
              case Revert => r == Revert
              case Ok(after) => r == Ok(after.success) && dispute == after.dispute
    {
      match proof
      case FoldRechallenge(block, signatures) => r := ApplyFoldRechallengeProof(block, signatures);
      case DoubleSign(pairs) => r := ApplyDoubleSignProof(pairs);
      case IncorrectData(block1, block2, preState) => r := ApplyIncorrectDataProof(c, block1, block2, preState);
      case NewerState(block, confirmation) => r := ApplyNewerStateProof(block, confirmation);
      case FoldPriorBlock(height) => r := ApplyFoldPriorBlockProof(c, sender, height);
      case BlockTooFarInFuture(early) => r := ApplyBlockTooFarInFutureProof(c, early);
      case Join(joiner, confirmations) => r := ApplyJoinChannelProof(c, sender, joiner, confirmations);
      case LeaveChannelForce => r := Ok(false);
    }

    /** Lines 352-426. */
    method ApplyAll(ghost c: Chain, sender: Address, proofs: seq<Proof>) returns (r: Outcome<bool>)
      requires machine.env == env && Since(c)
      modifies `dispute, machine
      ensures match ApplyProofs(env, c, sender, old(dispute), proofs)
              case Revert => r == Revert
              case Ok(after) => r == Ok(after.success) && dispute == after.dispute
    {
      var atLeastOne := false;
      for i := 0 to |proofs|
        invariant Since(c)
        invariant ApplyEach(env, c, sender, old(dispute), proofs[..i]) == Ok(Applied(dispute, atLeastOne))
      {
        assert proofs[..i + 1][..i] == proofs[..i];
        var applied := ApplyOne(c, sender, proofs[i]);
        if applied.Revert? {
          EachReverts(env, c, sender, old(dispute), proofs, i + 1);
          return Revert;
        }
        atLeastOne := applied.value || atLeastOne;
      }
      assert proofs[..|proofs|] == proofs;
      var isSlashed := Lib.IsAddressInArray(dispute.slashed, sender);
      if isSlashed { return Revert; }
      return Ok(atLeastOne);
    }

    // ---------- the outcome of a dispute ----------

    /** AStateChannelManagerProxy.sol:299-313. */
    method ApplyJoinChannelToStateMachine(encodedState: Bytes, joins: seq<JoinChannel>)
      returns (r: Outcome<(Bytes, nat)>)
      requires machine.env == env
      modifies machine
      ensures r == ApplyJoins(env, encodedState, joins)
    {
      var successCnt: nat := 0;
      machine.SetState(encodedState);
      for i := 0 to |joins|
        invariant ApplyJoins(env, encodedState, joins[..i]) == Ok((machine.state, successCnt))
      {
        assert joins[..i + 1][..i] == joins[..i];
        var success := machine.JoinChannel(joins[i]);
        if success.Revert? {
          JoinsRevert(env, encodedState, joins, i + 1);
          return Revert;
        }
        if success.value { successCnt := successCnt + 1; }
      }
      assert joins[..|joins|] == joins;
      return Ok((machine.state, successCnt));
    }

    /** AStateChannelManagerProxy.sol:315-343 when slashing, 345-373 otherwise. Every removal is written behind the
        successful ones, so a failed one is overwritten or cut off; the writes stay in bounds. */
    method RemoveFromStateMachine(slashing: bool, encodedState: Bytes, gone: seq<Address>)
      returns (r: Outcome<(Bytes, nat)>, processExits: array<ProcessExit>)
      requires machine.env == env
      modifies machine
      ensures fresh(processExits)
      ensures match ApplyRemovals(Remover(env, slashing), encodedState, gone)
              case Revert => r == Revert
              case Ok(after) =>
                && r.Ok? && r.value.0 == after.0
                && r.value.1 <= processExits.Length && processExits[..r.value.1] == after.1
    {
      processExits := new ProcessExit[|gone|](_ => NO_EXIT);
      var successCnt: nat := 0;
      ghost var remove := Remover(env, slashing);
      machine.SetState(encodedState);
      for i := 0 to |gone|
        invariant successCnt <= i
        invariant ApplyRemovals(remove, encodedState, gone[..i]) == Ok((machine.state, processExits[..successCnt]))
      {
        assert gone[..i + 1][..i] == gone[..i];
        ghost var before := processExits[..successCnt];
        var removed;
        if slashing {
          removed := machine.SlashParticipant(gone[i]);
        } else {
          removed := machine.RemoveParticipant(gone[i]);
        }
        if removed.Revert? {
          RemovalsRevert(remove, encodedState, gone, i + 1);
          return Revert, processExits;
        }
        processExits[successCnt] := removed.value.1;
        assert processExits[..successCnt] == before && processExits[..successCnt + 1] == before + [removed.value.1];
        if removed.value.0 { successCnt := successCnt + 1; }
      }
      assert gone[..|gone|] == gone;
      r := Ok((machine.state, successCnt));
    }

    method PushExits(processExits: array<ProcessExit>, successCnt: nat)
      requires successCnt <= processExits.Length
      modifies `dispute
      ensures dispute == old(dispute).(exits := old(dispute.exits) + processExits[..successCnt])
    {
      for i := 0 to successCnt
        invariant dispute == old(dispute).(exits := old(dispute.exits) + processExits[..i])
      {
        dispute := dispute.(exits := dispute.exits + [processExits[i]]);
      }
    }

    /** One of the three shrinking passes of lines 312-348. */
    method Shrink(slashing: bool, encodedState: Bytes, gone: seq<Address>) returns (r: Outcome<Bytes>)
      requires machine.env == env
      modifies `dispute, machine
      ensures match ApplyRemovals(Remover(env, slashing), encodedState, gone)
              case Revert => r == Revert
              case Ok(after) => r == Ok(after.0) && dispute == old(dispute).(exits := old(dispute.exits) + after.1)
    {
      var removed, processExits := RemoveFromStateMachine(slashing, encodedState, gone);
      if removed.Revert? { return Revert; }
      PushExits(processExits, removed.value.1);
      return Ok(removed.value.0);
    }

    /** Lines 312-348: the slashed, who asked to leave, and the timed-out participant. */
    method ShrinkAll(encodedState: Bytes) returns (r: Outcome<Bytes>)
      requires machine.env == env && dispute.exits == []
      modifies `dispute, machine
      ensures match ApplyExits(env, old(dispute), encodedState)
              case Revert => r == Revert
              case Ok(shrunk) => r == Ok(shrunk.0) && dispute == old(dispute).(exits := shrunk.1)
    {
      var slashed :- Shrink(true, encodedState, dispute.slashed);
      var left :- Shrink(false, slashed, dispute.leaves);
      if dispute.timedout == ZERO_ADDRESS { return Ok(left); }
      r := Shrink(false, left, [dispute.timedout]);
    }

    /** Lines 295-350. */
    method ApplyDisputeToLatestState() returns (ok: bool)
      requires machine.env == env
      modifies `dispute, machine
      ensures match ApplyToLatestState(env, old(dispute))
              case Revert => !ok
              case Ok(settled) => ok && dispute == settled
    {
      var joined := ApplyJoinChannelToStateMachine(dispute.latestState, dispute.joins);
      if joined.Revert? || joined.value.1 != |dispute.joins| { return false; }
      dispute := dispute.(exits := []);
      var shrunk := ShrinkAll(joined.value.0);
      if shrunk.Revert? { return false; }
      dispute := dispute.(latestState := shrunk.value);
      return true;
    }

    /** StateChannelCommon.sol:109-116. */
    method SetState(encodedState: Bytes)
      modifies `latestFork, `encodedStates, `genesisTimestamps
      ensures View() == old(View()).WithState(encodedState)
    {
      latestFork := latestFork + 1;
      encodedStates := encodedStates[latestFork := encodedState];
      genesisTimestamps := genesisTimestamps[latestFork := now];
    }

    /** Lines 214-215 and 290-291: the outcome opens the next fork. */
    method Settle() returns (ok: bool)
      requires machine.env == env
      modifies this, machine
      ensures match ApplyToLatestState(env, old(dispute))
              case Revert => !ok
              case Ok(settled) => ok && View() == old(View()).(dispute := settled).WithState(settled.latestState)
    {
      ok := ApplyDisputeToLatestState();
      if ok { SetState(dispute.latestState); }
    }

    // ---------- the calls ----------

    /** Lines 138-188. */
    method CheckTimeout(sender: Address, forkCnt: nat, latest: Bytes, votes: seq<ConfirmedBlock>, timedout: Address,
                        folded: nat)
      returns (ok: bool)
      ensures ok == TimeoutAccepted(env, View(), sender, forkCnt, latest, votes, timedout, folded)
    {
      if timedout == ZERO_ADDRESS { return true; }
      var latestTimestamp := View().GenesisTime(forkCnt);
      if folded != 0 {
        if votes == [] { return false; }
        var lastBlock := votes[|votes| - 1].block;
        if lastBlock.Height() != folded - 1 { return false; }
        latestTimestamp := lastBlock.Timestamp();
      }
      if timedout != env.nextToWrite(latest) || View().CalldataFound(forkCnt, folded, timedout) { return false; }
      var lastBlockTimestamp := GetChainLatestBlockTimestamp(forkCnt, folded);
      if lastBlockTimestamp > latestTimestamp { latestTimestamp := lastBlockTimestamp; }
      if latestTimestamp + times.TimeoutWait() > UINT_MAX
         || now < latestTimestamp + times.TimeoutWait()
      {
        return false;
      }
      return timedout != sender;
    }

    /** Lines 937-944: the votes are appended. */
    method CopyVotes(votes: seq<ConfirmedBlock>)
      modifies `dispute
      ensures dispute == old(dispute).(votes := old(dispute.votes) + votes)
    {
      for i := 0 to |votes|
        invariant dispute == old(dispute).(votes := old(dispute.votes) + votes[..i])
      {
        dispute := dispute.(votes := dispute.votes + [votes[i]]);
      }
      assert votes[..|votes|] == votes;
    }

    /** Lines 189-207. */
    method OpenDispute(sender: Address, forkCnt: nat, finalized: Bytes, latest: Bytes, votes: seq<ConfirmedBlock>,
                       timedout: Address, folded: nat, participants: seq<Address>)
      modifies `dispute
      ensures dispute == FreshDispute(old(View()), sender, forkCnt, finalized, latest, votes, timedout, folded,
                                      participants)
    {
      dispute := dispute.(channelId := channelId, forkCnt := forkCnt, challengeCnt := 0,
                          foldedTransactionCnt := folded);
      CopyVotes(votes);
      dispute := dispute.(finalizedState := finalized, latestState := latest, timedout := timedout);
      if timedout != ZERO_ADDRESS { dispute := dispute.(timeoutDisputer := sender); }
      dispute := dispute.(postedStateDisputer := sender, participants := participants,
                          creationTimestamp := now, deadlineTimestamp := now + times.challenge);
    }

    /** Lines 108-217. */
    method Create(sender: Address, forkCnt: nat, finalized: Bytes, latest: Bytes, votes: seq<ConfirmedBlock>,
                  timedout: Address, folded: nat, proofs: seq<Proof>)
      returns (ok: bool)
      requires machine.env == env
      modifies this, machine
      ensures match CreateDispute(env, old(View()), sender, forkCnt, finalized, latest, votes, timedout, folded, proofs)
              case Revert => !ok
              case Ok(after) => ok && View() == after
    {
      if View().DisputeInProgress() || latestFork != forkCnt { return false; }
      var participants := env.participants(View().StateOf(forkCnt));
      var isParticipant := Lib.IsAddressInArray(participants, sender);
      if !isParticipant { return false; }
      var certified := IsFinalizedAndLatest(forkCnt, finalized, latest, votes, participants);
      if certified != Ok(true) { return false; }
      var timeoutOk := CheckTimeout(sender, forkCnt, latest, votes, timedout, folded);
      if !timeoutOk { return false; }
      OpenDispute(sender, forkCnt, finalized, latest, votes, timedout, folded, participants);
      var applied := ApplyAll(old(View()), sender, proofs);
      if applied.Revert? || (!applied.value && dispute.timedout == ZERO_ADDRESS) { return false; }
      ok := Settle();
    }

    /** Lines 280-288. */
    method Amend(sender: Address, votes: seq<ConfirmedBlock>, finalized: Bytes, latest: Bytes)
      modifies `dispute
      ensures dispute == Challenged(old(View()), sender, old(dispute), votes, finalized, latest)
    {
      CopyVotes(votes);
      dispute := dispute.(finalizedState := finalized, latestState := latest, postedStateDisputer := sender,
                          deadlineTimestamp := now + times.challenge, challengeCnt := dispute.challengeCnt + 1);
    }

    /** Lines 256-279. */
    method CheckCertificate(ghost c: Chain, votes: seq<ConfirmedBlock>, finalized: Bytes, latest: Bytes)
      returns (ok: bool)
      requires Since(c)
      ensures ok == Supersedes(env, c, dispute, votes, finalized, latest)
    {
      var certified := IsFinalizedAndLatest(dispute.forkCnt, finalized, latest, votes, dispute.participants);
      if certified != Ok(true) || dispute.votes == [] || votes == [] { return false; }
      return votes[0].block.Height() >= dispute.votes[0].block.Height();
    }

    /** Lines 255-291. */
    method Replace(ghost c: Chain, sender: Address, votes: seq<ConfirmedBlock>, finalized: Bytes, latest: Bytes)
      returns (ok: bool)
      requires machine.env == env && Since(c)
      modifies this, machine
      ensures match ReplaceDispute(env, c, sender, old(dispute), votes, finalized, latest)
              case Revert => !ok
              case Ok(after) => ok && View() == after
    {
      ok := CheckCertificate(c, votes, finalized, latest);
      if !ok { return; }
      Amend(sender, votes, finalized, latest);
      assert dispute == Challenged(c, sender, old(dispute), votes, finalized, latest) && Since(c);
      ok := Settle();
    }

    /** Lines 219-293. */
    method Challenge(sender: Address, forkCnt: nat, challengeCnt: nat, proofs: seq<Proof>, votes: seq<ConfirmedBlock>,
                     finalized: Bytes, latest: Bytes)
      returns (ok: bool)
      requires machine.env == env
      modifies this, machine
      ensures match ChallengeDispute(env, old(View()), sender, forkCnt, challengeCnt, proofs, votes, finalized, latest)
              case Revert => !ok
              case Ok(after) => ok && View() == after
    {
      if dispute.channelId == 0 || dispute.forkCnt != forkCnt || dispute.challengeCnt != challengeCnt { return false; }
      if dispute.deadlineTimestamp <= now { return false; }
      var isParticipant := Lib.IsAddressInArray(dispute.participants, sender);
      var isSlashed := Lib.IsAddressInArray(dispute.slashed, sender);
      if !isParticipant || isSlashed { return false; }
      var applied := ApplyAll(old(View()), sender, proofs);
      if applied != Ok(true) { return false; }
      ok := Replace(old(View()), sender, votes, finalized, latest);
    }

    /** AStateChannelManagerProxy.sol:395-453. */
    method Post(sender: Address, signed: SignedBlock) returns (ok: bool)
      modifies `postedBlockCalldata
      ensures match PostBlockCalldata(env, old(View()), sender, signed)
              case Revert => !ok
              case Ok(after) => ok && View() == after
    {
      var own := Lib.VerifyThresholdSigned(env, [sender], env.blockHash(signed.block), [signed.signature]);
      if own != Ok(true) || sender != signed.block.Author() { return false; }
      if now < times.TimeoutWait() || signed.block.Timestamp() < now - times.TimeoutWait()
         || signed.block.Timestamp() > now {
        return false;
      }
      if signed.block.ChannelOf() == channelId {
        var fork, key, data := signed.block.Fork(), (signed.block.Height(), sender), View().DataOf(signed.block.Fork());
        data := data.(calldata := data.calldata[key := Calldata(signed, now)]);
        data := data.(keys := data.keys + [key]);
        postedBlockCalldata := postedBlockCalldata[fork := data];
      }
      return true;
    }

    /** One transaction: a call that reverts leaves no trace. */
    method Transact(tx: Runs.Tx)
      requires machine.env == env
      modifies this, machine
      ensures View() == Runs.Next(env, old(View()), tx)
    {
      var before, ok := View(), true;
      match tx.call {
        case Tick(seconds) => now := now + seconds;
        case Post(signed) => ok := Post(tx.sender, signed);
        case Create(forkCnt, finalized, latest, votes, timedout, folded, proofs) =>
          ok := Create(tx.sender, forkCnt, finalized, latest, votes, timedout, folded, proofs);
        case Challenge(forkCnt, challengeCnt, proofs, votes, finalized, latest) =>
          ok := Challenge(tx.sender, forkCnt, challengeCnt, proofs, votes, finalized, latest);
      }
      if !ok {
        now, latestFork := before.now, before.latestFork;
        encodedStates, genesisTimestamps := before.states, before.genesisTimes;
        postedBlockCalldata, dispute := before.posted, before.dispute;
      }
    }
  }
}
