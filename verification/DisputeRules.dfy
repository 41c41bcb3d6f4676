/** The rules of DisputeManagerFacet.sol as functions of the stored state: what each call computes, or
    that it reverts. */
module DisputeRules {
  import opened Types
  import opened Storage
  import opened StateChannelUtilLibrary

  // ---------- the finality certificate (lines 846-935) ----------

  /** One vote: the right channel and fork, readable signatures, and its author among the signers. */
  predicate WellSigned(env: Env, channelId: ChannelId, forkCnt: nat, vote: ConfirmedBlock) {
    && vote.block.ChannelOf() == channelId && vote.block.Fork() == forkCnt
    && env.AllRecover(vote.block, vote.signatures)
    && env.Signs(vote.block, vote.signatures, vote.block.Author())
  }

  /** Vote `i` continues the chain of state hashes. Off genesis the first vote commits to the
      finalized state itself; otherwise each vote builds on what precedes it. */
  predicate Linked(env: Env, isGenesis: bool, finalized: Bytes, latest: Bytes, votes: seq<ConfirmedBlock>, i: nat)
    requires i < |votes|
  {
    && (if i == 0 then
          if isGenesis then env.keccak(finalized) == votes[0].block.previousStateHash
          else env.keccak(finalized) == votes[0].block.stateHash
        else votes[i - 1].block.stateHash == votes[i].block.previousStateHash)
    && (i == |votes| - 1 ==> votes[i].block.stateHash == env.keccak(latest))
  }

  /** The threshold addresses that signed at least one vote. */
  function Voters(env: Env, votes: seq<ConfirmedBlock>, threshold: seq<Address>): set<Address> {
    set a <- threshold | exists vote <- votes :: env.Signs(vote.block, vote.signatures, a)
  }

  function FinalizedAndLatest(env: Env, c: Chain, forkCnt: nat, finalized: Bytes, latest: Bytes,
                              votes: seq<ConfirmedBlock>, threshold: seq<Address>): Outcome<bool>
  {
    var isGenesis := c.IsGenesisState(env, forkCnt, finalized);
    :- Require(forall i :: 0 <= i < |votes| ==>
                 WellSigned(env, c.channelId, forkCnt, votes[i])
                 && Linked(env, isGenesis, finalized, latest, votes, i));
    Ok(isGenesis || |Voters(env, votes, threshold)| == |threshold|)
  }

  // ---------- evidence (lines 352-822) ----------

  datatype Proof =
    | FoldRechallenge(block: Block, signatures: seq<Signature>)
    | DoubleSign(pairs: seq<(SignedBlock, SignedBlock)>)
    | IncorrectData(block1: SignedBlock, block2: SignedBlock, preState: Bytes)
    | NewerState(newer: Block, confirmation: Signature)
    | FoldPriorBlock(transactionCnt: nat)
    | BlockTooFarInFuture(early: SignedBlock)
    | Join(joiner: SignedJoinChannel, confirmations: seq<Signature>)
    | LeaveChannelForce

  /** The dispute after some evidence, and whether the evidence counted as a success. */
  datatype Applied = Applied(dispute: Dispute, success: bool)

  function Slash(d: Dispute, a: Address): Applied {
    if a in d.slashed then Applied(d, false) else Applied(d.(slashed := d.slashed + [a]), true)
  }

  function TryCancelFold(d: Dispute, height: nat): Dispute {
    if height < d.foldedTransactionCnt then d.(timedout := ZERO_ADDRESS, timeoutDisputer := ZERO_ADDRESS) else d
  }

  function SignerOf(env: Env, signed: SignedBlock): Outcome<Address> {
    match env.Signer(signed.block, signed.signature)
    case None => Revert
    case Some(a) => Ok(a)
  }

  predicate OnDispute(d: Dispute, block: Block) {
    block.ChannelOf() == d.channelId && block.Fork() == d.forkCnt
  }

  function ApplyFoldRechallenge(env: Env, d: Dispute, block: Block, signatures: seq<Signature>): Outcome<Applied> {
    var onFold := OnDispute(d, block) && block.Height() == d.foldedTransactionCnt;
    :- Require(onFold);
    var succeeds :- ThresholdSigned(env, d.participants, env.blockHash(block), signatures);
    :- Require(succeeds);
    Ok(Slash(d.(timedout := ZERO_ADDRESS), d.timeoutDisputer))
  }

  function ApplyDoubleSignPair(env: Env, before: Applied, pair: (SignedBlock, SignedBlock)): Outcome<Applied> {
    var d, block1, block2 := before.dispute, pair.0.block, pair.1.block;
    :- Require(OnDispute(d, block1) && OnDispute(d, block2));
    :- Require(block1.Height() == block2.Height());
    :- Require(env.blockHash(block1) != env.blockHash(block2));
    var signer1 :- SignerOf(env, pair.0);
    var signer2 :- SignerOf(env, pair.1);
    :- Require(signer1 == signer2);
    var slashed := Slash(d, signer1);
    var success := slashed.success || before.success;
    Ok(Applied(if success then TryCancelFold(slashed.dispute, block1.Height()) else slashed.dispute, success))
  }

  function ApplyDoubleSign(env: Env, d: Dispute, pairs: seq<(SignedBlock, SignedBlock)>): Outcome<Applied> {
    if pairs == [] then Ok(Applied(d, false))
    else
      var last := |pairs| - 1;
      var before :- ApplyDoubleSign(env, d, pairs[..last]);
      ApplyDoubleSignPair(env, before, pairs[last])
  }

  /** Lines 947-968. A reference time too close to 2^256 makes the checked addition revert. */
  function GoodTimestamp(c: Chain, previousTimestamp: nat, block: Block): Outcome<bool> {
    var latestPosted := c.LatestPosted(block.Fork(), block.Height());
    var reference := if latestPosted > previousTimestamp then latestPosted else previousTimestamp;
    if block.Timestamp() < previousTimestamp then Ok(false)
    else if reference + c.times.p2p > UINT_MAX then Revert
    else Ok(block.Timestamp() <= reference + c.times.p2p)
  }

  /** Lines 558-589: the time to judge from; block2 must build on the pre-state, and off genesis on block1. */
  function PreviousTimestamp(env: Env, c: Chain, d: Dispute, block1: Block, block2: Block, preState: Bytes)
    : Outcome<nat>
  {
    if c.IsGenesisState(env, d.forkCnt, preState) then
      if block2.previousStateHash == env.keccak(preState) then Ok(c.GenesisTime(d.forkCnt)) else Revert
    else if block2.previousStateHash == block1.stateHash == env.keccak(preState) then Ok(block1.Timestamp())
    else Revert
  }

  /** Lines 591-617: in time, played without a revert, and to the state it names. */
  function IsCorrect(env: Env, c: Chain, previousTimestamp: nat, preState: Bytes, block: Block): Outcome<bool> {
    var inTime :- GoodTimestamp(c, previousTimestamp, block);
    var executed := env.step(preState, block.transaction);
    Ok(inTime && executed.Some? && block.stateHash == env.keccak(executed.value))
  }

  /** Slash, and when that is new cancel a fold above the height. */
  function Punish(d: Dispute, a: Address, height: nat): Applied {
    var slashed := Slash(d, a);
    if slashed.success then Applied(TryCancelFold(slashed.dispute, height), true) else slashed
  }

  function ApplyIncorrectData(env: Env, c: Chain, d: Dispute, block1: SignedBlock, block2: SignedBlock, preState: Bytes)
    : Outcome<Applied>
  {
    var signer1 :- SignerOf(env, block1);
    var signer2 :- SignerOf(env, block2);
    :- Require(signer1 == block1.block.Author() && signer2 == block2.block.Author());
    :- Require(OnDispute(d, block1.block) && OnDispute(d, block2.block));
    var previousTimestamp :- PreviousTimestamp(env, c, d, block1.block, block2.block, preState);
    var correct :- IsCorrect(env, c, previousTimestamp, preState, block2.block);
    Ok(if correct then Applied(d, false) else Punish(d, block2.block.Author(), block1.block.Height()))
  }

  function ApplyNewerState(env: Env, d: Dispute, block: Block, confirmation: Signature): Outcome<Applied> {
    var onDispute := OnDispute(d, block);
    :- Require(onDispute);
    var signer :- SignerOf(env, SignedBlock(block, confirmation));
    :- Require(signer == d.postedStateDisputer);
    :- Require(d.votes != []);
    :- Require(block.Height() >= d.votes[|d.votes| - 1].block.Height());
    Ok(Slash(d, d.postedStateDisputer))
  }

  /** Lines 663-703. The loop leaves its variable on the last vote, so that vote's author is folded,
      whatever height the evidence names. */
  function ApplyFoldPriorBlock(c: Chain, sender: Address, d: Dispute, height: nat): Outcome<Applied> {
    var inVotes := exists vote <- d.votes :: vote.block.Height() == height;
    :- Require(inVotes);
    :- Require(height < d.foldedTransactionCnt);
    var author := d.votes[|d.votes| - 1].block.Author();
    var posted := c.DataOf(d.forkCnt).TimeOf((height, author));
    :- Require(posted == 0 || posted > d.creationTimestamp);
    Ok(Applied(d.(timedout := author, timeoutDisputer := sender), true))
  }

  function ApplyBlockTooFarInFuture(env: Env, c: Chain, d: Dispute, early: SignedBlock): Outcome<Applied> {
    var onDispute := OnDispute(d, early.block);
    :- Require(onDispute);
    var signer :- SignerOf(env, early);
    :- Require(signer == early.block.Author());
    :- Require(signer in d.participants);
    :- Require(early.block.Timestamp() > c.now);
    Ok(Slash(d, early.block.Author()))
  }

  function ApplyJoin(env: Env, c: Chain, sender: Address, d: Dispute, joiner: SignedJoinChannel,
                     confirmations: seq<Signature>): Outcome<Applied>
  {
    var everyone :- ThresholdSigned(env, d.participants, env.signedJoinHash(joiner), confirmations);
    :- Require(everyone);
    var jc := joiner.joinChannel;
    var self :- ThresholdSigned(env, [jc.participant], env.joinHash(jc), [joiner.signature]);
    :- Require(self);
    :- Require(jc.channelId == d.channelId);
    :- Require(sender == env.nextToWrite(d.latestState));
    :- Require(jc.participant !in d.participants);
    :- Require(c.now > jc.deadlineTimestamp);
    :- Require(forall other <- d.joins :: other.participant != jc.participant);
    :- Require(env.addComposable(jc));
    Ok(Applied(d.(joins := d.joins + [jc]), true))
  }

  function ApplyProof(env: Env, c: Chain, sender: Address, d: Dispute, proof: Proof): Outcome<Applied> {
    match proof
    case FoldRechallenge(block, signatures) => ApplyFoldRechallenge(env, d, block, signatures)
    case DoubleSign(pairs) => ApplyDoubleSign(env, d, pairs)
    case IncorrectData(block1, block2, preState) => ApplyIncorrectData(env, c, d, block1, block2, preState)
    case NewerState(block, confirmation) => ApplyNewerState(env, d, block, confirmation)
    case FoldPriorBlock(height) => ApplyFoldPriorBlock(c, sender, d, height)
    case BlockTooFarInFuture(early) => ApplyBlockTooFarInFuture(env, c, d, early)
    case Join(joiner, confirmations) => ApplyJoin(env, c, sender, d, joiner, confirmations)
    case LeaveChannelForce => Ok(Applied(d, false))
  }

  /** The loop of applyProofs: `success` accumulates. */
  function ApplyEach(env: Env, c: Chain, sender: Address, d: Dispute, proofs: seq<Proof>): Outcome<Applied> {
    if proofs == [] then Ok(Applied(d, false))
    else
      var last := |proofs| - 1;
      var before :- ApplyEach(env, c, sender, d, proofs[..last]);
      var after :- ApplyProof(env, c, sender, before.dispute, proofs[last]);
      Ok(after.(success := after.success || before.success))
  }

  function ApplyProofs(env: Env, c: Chain, sender: Address, d: Dispute, proofs: seq<Proof>): Outcome<Applied> {
    var applied :- ApplyEach(env, c, sender, d, proofs);
    :- Require(sender !in applied.dispute.slashed);
    Ok(applied)
  }

  // ---------- the outcome of a dispute (lines 295-350) ----------

  /** The state after the joins, and how many of them succeeded. A join that reverts takes the whole call with it. */
  function ApplyJoins(env: Env, state: Bytes, joins: seq<JoinChannel>): Outcome<(Bytes, nat)> {
    if joins == [] then Ok((state, 0))
    else
      var last := |joins| - 1;
      var before :- ApplyJoins(env, state, joins[..last]);
      var joined :- env.join(before.0, joins[last]);
      Ok((joined.1, if joined.0 then before.1 + 1 else before.1))
  }

  /** Remove the addresses one after the other; the exits of the successful removals, in order. A removal that
      reverts takes the whole call with it. */
  function ApplyRemovals(remove: (Bytes, Address) -> Outcome<Removal>, state: Bytes, gone: seq<Address>)
    : Outcome<(Bytes, seq<ProcessExit>)>
  {
    if gone == [] then Ok((state, []))
    else
      var last := |gone| - 1;
      var before :- ApplyRemovals(remove, state, gone[..last]);
      var removed :- remove(before.0, gone[last]);
      Ok((removed.state, if removed.success then before.1 + [removed.exit] else before.1))
  }

  /** Whom a dispute folds: nobody, or the timed-out participant. */
  function Folded(d: Dispute): seq<Address> {
    if d.timedout != ZERO_ADDRESS then [d.timedout] else []
  }

  /** Lines 312-348: the three shrinking passes. */
  function ApplyExits(env: Env, d: Dispute, state: Bytes): Outcome<(Bytes, seq<ProcessExit>)> {
    var slashed :- ApplyRemovals(env.slash, state, d.slashed);
    var left :- ApplyRemovals(env.remove, slashed.0, d.leaves);
    var folded :- ApplyRemovals(env.remove, left.0, Folded(d));
    Ok((folded.0, slashed.1 + left.1 + folded.1))
  }

  function ApplyToLatestState(env: Env, d: Dispute): Outcome<Dispute> {
    var joined :- ApplyJoins(env, d.latestState, d.joins);
    :- Require(joined.1 == |d.joins|);
    var shrunk :- ApplyExits(env, d, joined.0);
    Ok(d.(latestState := shrunk.0, exits := shrunk.1))
  }

  /** A machine that lets nobody join. */
  ghost predicate RefusesJoins(env: Env) {
    forall state, joinChannel :: env.join(state, joinChannel) == Ok((false, state))
  }

  lemma {:induction false} JoinsAreRefused(env: Env, state: Bytes, joins: seq<JoinChannel>)
    requires RefusesJoins(env)
    ensures ApplyJoins(env, state, joins) == Ok((state, 0))
  {
    if joins != [] { JoinsAreRefused(env, state, joins[..|joins| - 1]); }
  }

  /** On such a machine a dispute with a pending join can not be settled. */
  lemma NobodyJoins(env: Env, d: Dispute)
    requires RefusesJoins(env)
    ensures d.joins != [] ==> ApplyToLatestState(env, d) == Revert
  {
    JoinsAreRefused(env, d.latestState, d.joins);
  }

  /** Without joins and leaves, settling is two passes of removals. */
  lemma SettlingIsTwoPasses(env: Env, d: Dispute)
    requires d.joins == [] && d.leaves == []
    ensures ApplyToLatestState(env, d) ==
            match ApplyRemovals(env.slash, d.latestState, d.slashed)
            case Revert => Revert
            case Ok(slashed) =>
              match ApplyRemovals(env.remove, slashed.0, Folded(d))
              case Revert => Revert
              case Ok(folded) => Ok(d.(latestState := folded.0, exits := slashed.1 + folded.1))
  {
    var slashed := ApplyRemovals(env.slash, d.latestState, d.slashed);
    if slashed.Ok? {
      assert ApplyRemovals(env.remove, slashed.value.0, d.leaves) == Ok((slashed.value.0, []));
      assert slashed.value.1 + [] == slashed.value.1;
    }
  }

  // ---------- the two calls ----------

  /** Lines 138-188: when a claimed timeout is accepted. */
  predicate TimeoutAccepted(env: Env, c: Chain, sender: Address, forkCnt: nat, latest: Bytes,
                            votes: seq<ConfirmedBlock>, timedout: Address, folded: nat)
  {
    timedout != ZERO_ADDRESS ==>
      && (folded != 0 ==> votes != [] && votes[|votes| - 1].block.Height() + 1 == folded)
      && timedout == env.nextToWrite(latest)
      && !c.CalldataFound(forkCnt, folded, timedout)
      && var latestTimestamp := if folded != 0 then votes[|votes| - 1].block.Timestamp() else c.GenesisTime(forkCnt);
         var posted := c.LatestPosted(forkCnt, folded);
         var reference := if posted > latestTimestamp then posted else latestTimestamp;
      && reference + c.times.TimeoutWait() <= UINT_MAX
      && c.now >= reference + c.times.TimeoutWait()
      && timedout != sender
  }

  /** Lines 189-207: the fields a new dispute overwrites. The votes are appended, and the slashed list,
      the joins, the leaves and (without a timeout) the timeout disputer are those of the last dispute. */
  function FreshDispute(c: Chain, sender: Address, forkCnt: nat, finalized: Bytes, latest: Bytes,
                        votes: seq<ConfirmedBlock>, timedout: Address, folded: nat, participants: seq<Address>): Dispute
  {
    c.dispute.(
      channelId := c.channelId, forkCnt := forkCnt, challengeCnt := 0, foldedTransactionCnt := folded,
      votes := c.dispute.votes + votes, finalizedState := finalized, latestState := latest, timedout := timedout,
      timeoutDisputer := if timedout != ZERO_ADDRESS then sender else c.dispute.timeoutDisputer,
      postedStateDisputer := sender, participants := participants, creationTimestamp := c.now,
      deadlineTimestamp := c.now + c.times.challenge)
  }

  /** Lines 208-215: the part of a new dispute after its fields were set. */
  function BeginDispute(env: Env, c: Chain, sender: Address, d: Dispute, proofs: seq<Proof>): Outcome<Chain> {
    var applied :- ApplyProofs(env, c, sender, d, proofs);
    :- Require(applied.success || applied.dispute.timedout != ZERO_ADDRESS);
    var settled :- ApplyToLatestState(env, applied.dispute);
    Ok(c.(dispute := settled).WithState(settled.latestState))
  }

  function CreateDispute(env: Env, c: Chain, sender: Address, forkCnt: nat, finalized: Bytes, latest: Bytes,
                         votes: seq<ConfirmedBlock>, timedout: Address, folded: nat, proofs: seq<Proof>): Outcome<Chain>
  {
    var participants := env.participants(c.StateOf(forkCnt));
    :- Require(!c.DisputeInProgress());
    :- Require(c.latestFork == forkCnt);
    :- Require(sender in participants);
    var certified :- FinalizedAndLatest(env, c, forkCnt, finalized, latest, votes, participants);
    :- Require(certified);
    :- Require(TimeoutAccepted(env, c, sender, forkCnt, latest, votes, timedout, folded));
    BeginDispute(env, c, sender,
                 FreshDispute(c, sender, forkCnt, finalized, latest, votes, timedout, folded, participants),
                 proofs)
  }

  /** Lines 280-288: the dispute a challenge hands over for settling. */
  function Challenged(c: Chain, sender: Address, d: Dispute, votes: seq<ConfirmedBlock>, finalized: Bytes,
                      latest: Bytes): Dispute
  {
    d.(votes := d.votes + votes, finalizedState := finalized, latestState := latest, postedStateDisputer := sender,
       deadlineTimestamp := c.now + c.times.challenge, challengeCnt := d.challengeCnt + 1)
  }

  /** Lines 256-279: the certificate of a challenge holds, and starts no earlier than the first vote ever posted. */
  predicate Supersedes(env: Env, c: Chain, d: Dispute, votes: seq<ConfirmedBlock>, finalized: Bytes, latest: Bytes) {
    && FinalizedAndLatest(env, c, d.forkCnt, finalized, latest, votes, d.participants) == Ok(true)
    && d.votes != [] && votes != []
    && votes[0].block.Height() >= d.votes[0].block.Height()
  }

  /** Lines 255-291: the part of a challenge after its evidence was applied, with `d` as the result. */
  function ReplaceDispute(env: Env, c: Chain, sender: Address, d: Dispute, votes: seq<ConfirmedBlock>, finalized: Bytes,
                          latest: Bytes): Outcome<Chain>
  {
    var certified := Supersedes(env, c, d, votes, finalized, latest);
    :- Require(certified);
    var settled :- ApplyToLatestState(env, Challenged(c, sender, d, votes, finalized, latest));
    Ok(c.(dispute := settled).WithState(settled.latestState))
  }

  function ChallengeDispute(env: Env, c: Chain, sender: Address, forkCnt: nat, challengeCnt: nat, proofs: seq<Proof>,
                            votes: seq<ConfirmedBlock>, finalized: Bytes, latest: Bytes): Outcome<Chain>
  {
    var d := c.dispute;
    :- Require(d.channelId != 0 && d.forkCnt == forkCnt && d.challengeCnt == challengeCnt);
    :- Require(d.deadlineTimestamp > c.now);
    :- Require(sender in d.participants && sender !in d.slashed);
    var applied :- ApplyProofs(env, c, sender, d, proofs);
    :- Require(applied.success);
    ReplaceDispute(env, c, sender, applied.dispute, votes, finalized, latest)
  }

  /** AStateChannelManagerProxy.sol:395-453. A block of another channel is stored under that channel. */
  function PostBlockCalldata(env: Env, c: Chain, sender: Address, signed: SignedBlock): Outcome<Chain> {
    var own :- ThresholdSigned(env, [sender], env.blockHash(signed.block), [signed.signature]);
    :- Require(own);
    :- Require(sender == signed.block.Author());
    :- Require(c.now >= c.times.TimeoutWait());
    :- Require(signed.block.Timestamp() >= c.now - c.times.TimeoutWait());
    :- Require(signed.block.Timestamp() <= c.now);
    if signed.block.ChannelOf() != c.channelId then Ok(c)
    else
      var fork, key, data := signed.block.Fork(), (signed.block.Height(), sender), c.DataOf(signed.block.Fork());
      Ok(c.(posted := c.posted[fork := ForkData(data.calldata[key := Calldata(signed, c.now)], data.keys + [key])]))
  }
}
