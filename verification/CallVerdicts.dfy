/** What each call of the contract needs, and what it leaves in storage, field by field: the certificate
    (DisputeManagerFacet.sol:846-935), the list of evidence (352-426), settling (295-350), the two calls (108-293) and
    the posting of a block (AStateChannelManagerProxy.sol:395-453). */
module CallVerdicts {
  import opened Types
  import opened Storage
  import opened DisputeRules
  import opened DisputeRuns
  import EV = EvidenceVerdicts
  import JT = JointTheorems

  // ---------- the certificate ----------

  /** A vote for the channel and the fork, with readable signatures, one of them by its author. */
  predicate IsVote(env: Env, c: Chain, forkCnt: nat, vote: ConfirmedBlock) {
    var header, hash := vote.block.transaction.header, env.blockHash(vote.block);
    && header.channelId == c.channelId && header.forkCnt == forkCnt
    && (forall i :: 0 <= i < |vote.signatures| ==> env.recover(hash, vote.signatures[i]).Some?)
    && exists i :: 0 <= i < |vote.signatures| && env.recover(hash, vote.signatures[i]) == Some(header.participant)
  }

  predicate VoteBy(env: Env, vote: ConfirmedBlock, a: Address) {
    exists i :: 0 <= i < |vote.signatures| && env.recover(env.blockHash(vote.block), vote.signatures[i]) == Some(a)
  }

  predicate OnGenesisState(env: Env, c: Chain, forkCnt: nat, state: Bytes) {
    env.keccak(state) == env.keccak(if forkCnt in c.states then c.states[forkCnt] else [])
  }

  /** The hashes lead from the finalized state to the latest: the first vote is played on it, when it is the genesis
      state, and otherwise to it; each further vote is played on what the one before it was played to. */
  predicate HashesLead(env: Env, onGenesis: bool, finalized: Bytes, latest: Bytes, votes: seq<ConfirmedBlock>) {
    votes != [] ==>
      && env.keccak(finalized) == (if onGenesis then votes[0].block.previousStateHash else votes[0].block.stateHash)
      && (forall i :: 0 <= i < |votes| - 1 ==> votes[i].block.stateHash == votes[i + 1].block.previousStateHash)
      && env.keccak(latest) == votes[|votes| - 1].block.stateHash
  }

  /** The contract's answer to a certificate, exactly. */
  lemma FinalizedOutcome(env: Env, c: Chain, forkCnt: nat, finalized: Bytes, latest: Bytes, votes: seq<ConfirmedBlock>,
                         threshold: seq<Address>)
    ensures var onGenesis := OnGenesisState(env, c, forkCnt, finalized);
            FinalizedAndLatest(env, c, forkCnt, finalized, latest, votes, threshold) ==
            if !(forall i :: 0 <= i < |votes| ==> IsVote(env, c, forkCnt, votes[i]))
               || !HashesLead(env, onGenesis, finalized, latest, votes)
            then Revert
            else Ok(onGenesis || (Distinct(threshold) && forall a <- threshold :: SomeoneVotes(env, votes, a)))
  {
    var onGenesis := OnGenesisState(env, c, forkCnt, finalized);
    forall i | 0 <= i < |votes|
      ensures IsVote(env, c, forkCnt, votes[i]) <==> WellSigned(env, c.channelId, forkCnt, votes[i])
    {
      VoteIsWellSigned(env, c, forkCnt, votes[i]);
    }
    LinksLead(env, onGenesis, finalized, latest, votes);
    VotersAreEveryone(env, votes, threshold);
  }

  predicate SomeoneVotes(env: Env, votes: seq<ConfirmedBlock>, a: Address) {
    exists i :: 0 <= i < |votes| && VoteBy(env, votes[i], a)
  }

  lemma SignsIs(env: Env, vote: ConfirmedBlock, a: Address)
    ensures env.Signs(vote.block, vote.signatures, a) <==> VoteBy(env, vote, a)
  {
    if env.Signs(vote.block, vote.signatures, a) {
      var s :| s in vote.signatures && env.Signer(vote.block, s) == Some(a);
      var i :| 0 <= i < |vote.signatures| && vote.signatures[i] == s;
    }
    if VoteBy(env, vote, a) {
      var i :| 0 <= i < |vote.signatures| && env.recover(env.blockHash(vote.block), vote.signatures[i]) == Some(a);
      assert vote.signatures[i] in vote.signatures && env.Signer(vote.block, vote.signatures[i]) == Some(a);
    }
  }

  lemma VoteIsWellSigned(env: Env, c: Chain, forkCnt: nat, vote: ConfirmedBlock)
    ensures IsVote(env, c, forkCnt, vote) <==> WellSigned(env, c.channelId, forkCnt, vote)
  {
    SignsIs(env, vote, vote.block.Author());
    assert VoteBy(env, vote, vote.block.Author()) <==>
           exists i :: 0 <= i < |vote.signatures|
                       && env.recover(env.blockHash(vote.block), vote.signatures[i]) == Some(vote.block.Author());
    if env.AllRecover(vote.block, vote.signatures) {
      forall i | 0 <= i < |vote.signatures| ensures env.recover(env.blockHash(vote.block), vote.signatures[i]).Some? {
        assert vote.signatures[i] in vote.signatures && env.Signer(vote.block, vote.signatures[i]).Some?;
      }
    }
  }

  lemma LinksLead(env: Env, onGenesis: bool, finalized: Bytes, latest: Bytes, votes: seq<ConfirmedBlock>)
    ensures (forall i :: 0 <= i < |votes| ==> Linked(env, onGenesis, finalized, latest, votes, i)) <==>
            HashesLead(env, onGenesis, finalized, latest, votes)
  {
    if forall i :: 0 <= i < |votes| ==> Linked(env, onGenesis, finalized, latest, votes, i) {
      forall i | 0 <= i < |votes| - 1 ensures votes[i].block.stateHash == votes[i + 1].block.previousStateHash {
        assert Linked(env, onGenesis, finalized, latest, votes, i + 1);
      }
      if votes != [] {
        assert Linked(env, onGenesis, finalized, latest, votes, 0);
        assert Linked(env, onGenesis, finalized, latest, votes, |votes| - 1);
      }
    }
    if HashesLead(env, onGenesis, finalized, latest, votes) {
      forall i | 0 <= i < |votes| ensures Linked(env, onGenesis, finalized, latest, votes, i) {
        assert i > 0 ==> votes[i - 1].block.stateHash == votes[i - 1 + 1].block.previousStateHash;
      }
    }
  }

  lemma VotersAreEveryone(env: Env, votes: seq<ConfirmedBlock>, threshold: seq<Address>)
    ensures |Voters(env, votes, threshold)| == |threshold| <==>
            Distinct(threshold) && forall a <- threshold :: SomeoneVotes(env, votes, a)
  {
    var voters := Voters(env, votes, threshold);
    forall a | a in threshold ensures a in voters <==> SomeoneVotes(env, votes, a) {
      forall i | 0 <= i < |votes|
        ensures env.Signs(votes[i].block, votes[i].signatures, a) <==> VoteBy(env, votes[i], a)
      {
        SignsIs(env, votes[i], a);
      }
      if vote :| vote in votes && env.Signs(vote.block, vote.signatures, a) {
        var i :| 0 <= i < |votes| && votes[i] == vote;
      }
      if i :| 0 <= i < |votes| && VoteBy(env, votes[i], a) { assert votes[i] in votes; }
    }
    SetOfBound(threshold);
    SubsetCardinality(voters, SetOf(threshold));
    if Distinct(threshold) { DistinctCardinality(threshold); }
    if |voters| == |threshold| { CardinalityDistinct(threshold); }
    if forall a <- threshold :: SomeoneVotes(env, votes, a) { assert voters == SetOf(threshold); }
  }

  // ---------- a claimed timeout ----------

  /** The height follows the last vote, it is the participant's turn in the latest state, nothing was posted for it, the
      wait is over since the last vote (at height 0 since genesis) and the latest post, and it is not the sender. */
  lemma TimeoutOutcome(env: Env, c: Chain, sender: Address, forkCnt: nat, latest: Bytes, votes: seq<ConfirmedBlock>,
                       timedout: Address, folded: nat)
    ensures var since := if folded == 0 then if forkCnt in c.genesisTimes then c.genesisTimes[forkCnt] else 0
                         else if votes == [] then 0 else votes[|votes| - 1].block.transaction.header.timestamp;
            var posted := c.LatestPosted(forkCnt, folded);
            var over := (if posted > since then posted else since) + c.times.p2p + c.times.agreement
                        + c.times.chainFallback;
            var data := if forkCnt in c.posted then c.posted[forkCnt].calldata else map[];
            TimeoutAccepted(env, c, sender, forkCnt, latest, votes, timedout, folded) <==>
            || timedout == 0
            || (&& (folded > 0 ==>
                      votes != [] && folded == votes[|votes| - 1].block.transaction.header.transactionCnt + 1)
                && timedout == env.nextToWrite(latest) && timedout != sender
                && ((folded, timedout) in data ==> data[(folded, timedout)].timestamp == 0)
                && over <= c.now && over <= UINT_MAX)
  {}

  // ---------- a list of evidence ----------

  /** Piece after piece is accepted, each in the dispute that the one before it left, and counts or not. */
  ghost predicate Leads(env: Env, c: Chain, sender: Address, proofs: seq<Proof>, disputes: seq<Dispute>,
                        flags: seq<bool>)
  {
    && |disputes| == |proofs| + 1 && |flags| == |proofs|
    && forall i :: 0 <= i < |proofs| ==>
         ApplyProof(env, c, sender, disputes[i], proofs[i]) == Ok(Applied(disputes[i + 1], flags[i]))
  }

  /** From the first dispute the list leads to the outcome, which is a success when one piece counts. */
  ghost predicate LeadsTo(env: Env, c: Chain, sender: Address, d: Dispute, proofs: seq<Proof>, after: Applied,
                          disputes: seq<Dispute>, flags: seq<bool>)
  {
    && Leads(env, c, sender, proofs, disputes, flags)
    && disputes[0] == d && disputes[|proofs|] == after.dispute && (after.success <==> true in flags)
  }

  /** The list is accepted exactly when each piece is and the sender is not slashed in the end. */
  lemma EvidenceOutcome(env: Env, c: Chain, sender: Address, d: Dispute, proofs: seq<Proof>, after: Applied)
    ensures ApplyProofs(env, c, sender, d, proofs) == Ok(after) <==>
            && sender !in after.dispute.slashed
            && exists disputes, flags :: LeadsTo(env, c, sender, d, proofs, after, disputes, flags)
  {
    if ApplyEach(env, c, sender, d, proofs) == Ok(after) {
      var disputes, flags := EachLeads(env, c, sender, d, proofs);
    }
    if disputes, flags :| LeadsTo(env, c, sender, d, proofs, after, disputes, flags) {
      LeadsEach(env, c, sender, proofs, disputes, flags);
    }
  }

  lemma LastApplied(env: Env, c: Chain, sender: Address, d: Dispute, proofs: seq<Proof>)
    returns (before: Applied, last: Applied)
    requires proofs != [] && ApplyEach(env, c, sender, d, proofs).Ok?
    ensures ApplyEach(env, c, sender, d, proofs[..|proofs| - 1]) == Ok(before)
    ensures ApplyProof(env, c, sender, before.dispute, proofs[|proofs| - 1]) == Ok(last)
    ensures ApplyEach(env, c, sender, d, proofs) == Ok(Applied(last.dispute, last.success || before.success))
  {
    before := ApplyEach(env, c, sender, d, proofs[..|proofs| - 1]).value;
    last := ApplyProof(env, c, sender, before.dispute, proofs[|proofs| - 1]).value;
  }

  lemma LeadsOn(env: Env, c: Chain, sender: Address, d: Dispute, proofs: seq<Proof>, before: Applied, last: Applied,
                disputes: seq<Dispute>, flags: seq<bool>)
    requires proofs != [] && LeadsTo(env, c, sender, d, proofs[..|proofs| - 1], before, disputes, flags)
    requires ApplyProof(env, c, sender, before.dispute, proofs[|proofs| - 1]) == Ok(last)
    ensures LeadsTo(env, c, sender, d, proofs, Applied(last.dispute, last.success || before.success),
                    disputes + [last.dispute], flags + [last.success])
  {
    var all, marks, n := disputes + [last.dispute], flags + [last.success], |proofs| - 1;
    forall i | 0 <= i < |proofs|
      ensures ApplyProof(env, c, sender, all[i], proofs[i]) == Ok(Applied(all[i + 1], marks[i]))
    {
      if i < n { assert proofs[..n][i] == proofs[i] && all[i] == disputes[i]; }
    }
  }

  lemma {:induction false} EachLeads(env: Env, c: Chain, sender: Address, d: Dispute, proofs: seq<Proof>)
    returns (disputes: seq<Dispute>, flags: seq<bool>)
    requires ApplyEach(env, c, sender, d, proofs).Ok?
    ensures LeadsTo(env, c, sender, d, proofs, ApplyEach(env, c, sender, d, proofs).value, disputes, flags)
  {
    if proofs == [] {
      disputes, flags := [d], [];
    } else {
      var before, last := LastApplied(env, c, sender, d, proofs);
      disputes, flags := EachLeads(env, c, sender, d, proofs[..|proofs| - 1]);
      LeadsOn(env, c, sender, d, proofs, before, last, disputes, flags);
      disputes, flags := disputes + [last.dispute], flags + [last.success];
    }
  }

  lemma EachOn(env: Env, c: Chain, sender: Address, d: Dispute, proofs: seq<Proof>, before: Applied, last: Applied)
    requires proofs != [] && ApplyEach(env, c, sender, d, proofs[..|proofs| - 1]) == Ok(before)
    requires ApplyProof(env, c, sender, before.dispute, proofs[|proofs| - 1]) == Ok(last)
    ensures ApplyEach(env, c, sender, d, proofs) == Ok(Applied(last.dispute, last.success || before.success))
  {}

  lemma LeadsFront(env: Env, c: Chain, sender: Address, proofs: seq<Proof>, disputes: seq<Dispute>, flags: seq<bool>)
    requires proofs != [] && Leads(env, c, sender, proofs, disputes, flags)
    ensures var last := |proofs| - 1;
            && Leads(env, c, sender, proofs[..last], disputes[..last + 1], flags[..last])
            && ApplyProof(env, c, sender, disputes[last], proofs[last]) == Ok(Applied(disputes[last + 1], flags[last]))
  {}

  lemma {:induction false} LeadsEach(env: Env, c: Chain, sender: Address, proofs: seq<Proof>, disputes: seq<Dispute>,
                                     flags: seq<bool>)
    requires Leads(env, c, sender, proofs, disputes, flags)
    ensures ApplyEach(env, c, sender, disputes[0], proofs) == Ok(Applied(disputes[|proofs|], true in flags))
  {
    if proofs != [] {
      var last := |proofs| - 1;
      LeadsFront(env, c, sender, proofs, disputes, flags);
      LeadsEach(env, c, sender, proofs[..last], disputes[..last + 1], flags[..last]);
      EachOn(env, c, sender, disputes[0], proofs, Applied(disputes[last], true in flags[..last]),
             Applied(disputes[last + 1], flags[last]));
      assert flags == flags[..last] + [flags[last]];
    }
  }

  // ---------- settling ----------

  /** The addresses are removed one after the other, each from the state that the one before it left. */
  predicate RemovesThrough(remove: (Bytes, Address) -> Outcome<Removal>, gone: seq<Address>, states: seq<Bytes>,
                           removals: seq<Removal>)
  {
    && |states| == |gone| + 1 && |removals| == |gone|
    && forall i :: 0 <= i < |gone| ==>
         remove(states[i], gone[i]) == Ok(removals[i]) && removals[i].state == states[i + 1]
  }

  /** The exits of the removals that succeeded, in order. */
  function ExitsOf(removals: seq<Removal>): seq<ProcessExit> {
    if removals == [] then []
    else (if removals[0].success then [removals[0].exit] else []) + ExitsOf(removals[1..])
  }

  lemma {:induction false} ExitsOfMore(removals: seq<Removal>, more: Removal)
    ensures ExitsOf(removals + [more]) == ExitsOf(removals) + (if more.success then [more.exit] else [])
  {
    if removals != [] {
      ExitsOfMore(removals[1..], more);
      assert (removals + [more])[1..] == removals[1..] + [more];
    } else {
      assert (removals + [more])[1..] == [];
    }
  }

  /** The pass over `gone` leads from the state to the outcome. */
  predicate RemovesTo(remove: (Bytes, Address) -> Outcome<Removal>, state: Bytes, gone: seq<Address>, after: Bytes,
                      exits: seq<ProcessExit>, states: seq<Bytes>, removals: seq<Removal>)
  {
    && RemovesThrough(remove, gone, states, removals)
    && states[0] == state && states[|gone|] == after && exits == ExitsOf(removals)
  }

  lemma {:induction false} RemovalsAre(remove: (Bytes, Address) -> Outcome<Removal>, state: Bytes, gone: seq<Address>)
    returns (states: seq<Bytes>, removals: seq<Removal>)
    requires ApplyRemovals(remove, state, gone).Ok?
    ensures var after := ApplyRemovals(remove, state, gone).value;
            RemovesTo(remove, state, gone, after.0, after.1, states, removals)
  {
    if gone == [] {
      states, removals := [state], [];
    } else {
      var last := |gone| - 1;
      states, removals := RemovalsAre(remove, state, gone[..last]);
      var more := remove(states[last], gone[last]).value;
      ExitsOfMore(removals, more);
      states, removals := states + [more.state], removals + [more];
    }
  }

  lemma {:induction false} AreRemovals(remove: (Bytes, Address) -> Outcome<Removal>, gone: seq<Address>,
                                       states: seq<Bytes>, removals: seq<Removal>)
    requires RemovesThrough(remove, gone, states, removals)
    ensures ApplyRemovals(remove, states[0], gone) == Ok((states[|gone|], ExitsOf(removals)))
  {
    if gone != [] {
      var last := |gone| - 1;
      AreRemovals(remove, gone[..last], states[..last + 1], removals[..last]);
      ExitsOfMore(removals[..last], removals[last]);
      assert removals == removals[..last] + [removals[last]];
      assert remove(states[last], gone[last]) == Ok(removals[last]);
      assert ExitsOf(removals[..last]) + [] == ExitsOf(removals[..last]);
    } else {
      assert removals == [];
    }
  }

  ghost predicate Removed(remove: (Bytes, Address) -> Outcome<Removal>, state: Bytes, gone: seq<Address>, after: Bytes,
                          exits: seq<ProcessExit>)
  {
    exists states, removals :: RemovesTo(remove, state, gone, after, exits, states, removals)
  }

  lemma RemovalsOutcome(remove: (Bytes, Address) -> Outcome<Removal>, state: Bytes, gone: seq<Address>, after: Bytes,
                        exits: seq<ProcessExit>)
    ensures ApplyRemovals(remove, state, gone) == Ok((after, exits)) <==> Removed(remove, state, gone, after, exits)
  {
    if ApplyRemovals(remove, state, gone) == Ok((after, exits)) {
      var states, removals := RemovalsAre(remove, state, gone);
    }
    if states, removals :| RemovesTo(remove, state, gone, after, exits, states, removals) {
      AreRemovals(remove, gone, states, removals);
    }
  }

  /** The requests are joined one after the other, and each succeeds. */
  predicate JoinsThrough(env: Env, state: Bytes, joins: seq<JoinChannel>, states: seq<Bytes>) {
    && |states| == |joins| + 1 && states[0] == state
    && forall i :: 0 <= i < |joins| ==> env.join(states[i], joins[i]) == Ok((true, states[i + 1]))
  }

  ghost predicate JoinsTo(env: Env, state: Bytes, joins: seq<JoinChannel>, after: Bytes) {
    exists states :: JoinsThrough(env, state, joins, states) && after == states[|joins|]
  }

  lemma {:induction false} JoinsBound(env: Env, state: Bytes, joins: seq<JoinChannel>)
    ensures ApplyJoins(env, state, joins).Ok? ==> ApplyJoins(env, state, joins).value.1 <= |joins|
  {
    if joins != [] { JoinsBound(env, state, joins[..|joins| - 1]); }
  }

  lemma {:induction false} JoinsOutcome(env: Env, state: Bytes, joins: seq<JoinChannel>, after: Bytes)
    ensures ApplyJoins(env, state, joins) == Ok((after, |joins|)) <==> JoinsTo(env, state, joins, after)
  {
    if joins == [] {
      assert JoinsThrough(env, state, joins, [state]);
    } else {
      var last := |joins| - 1;
      var front := ApplyJoins(env, state, joins[..last]);
      JoinsBound(env, state, joins[..last]);
      if ApplyJoins(env, state, joins) == Ok((after, |joins|)) {
        JoinsOutcome(env, state, joins[..last], front.value.0);
        var states: seq<Bytes> :| JoinsThrough(env, state, joins[..last], states) && front.value.0 == states[last];
        assert JoinsThrough(env, state, joins, states + [after]);
      }
      if states: seq<Bytes> :| JoinsThrough(env, state, joins, states) && after == states[|joins|] {
        assert JoinsThrough(env, state, joins[..last], states[..last + 1]);
        JoinsOutcome(env, state, joins[..last], states[last]);
      }
    }
  }

  /** Settling: every pending request is joined; then the slashed are slashed, those who asked to leave removed, and the
      timed-out participant removed. The state is what this leaves, and the exits are those of the three passes. */
  ghost predicate SettlesTo(env: Env, d: Dispute, settled: Dispute, joined: Bytes, slashed: Bytes, left: Bytes,
                            exits: (seq<ProcessExit>, seq<ProcessExit>, seq<ProcessExit>))
  {
    && JoinsTo(env, d.latestState, d.joins, joined)
    && Removed(env.slash, joined, d.slashed, slashed, exits.0)
    && Removed(env.remove, slashed, d.leaves, left, exits.1)
    && Removed(env.remove, left, if d.timedout == 0 then [] else [d.timedout], settled.latestState, exits.2)
    && settled == d.(latestState := settled.latestState, exits := exits.0 + exits.1 + exits.2)
  }

  lemma SettlingOutcome(env: Env, d: Dispute, settled: Dispute)
    ensures ApplyToLatestState(env, d) == Ok(settled) <==>
            exists joined, slashed, left, exits :: SettlesTo(env, d, settled, joined, slashed, left, exits)
  {
    if ApplyToLatestState(env, d) == Ok(settled) {
      var joined := ApplyJoins(env, d.latestState, d.joins).value.0;
      var slashed := ApplyRemovals(env.slash, joined, d.slashed).value;
      var left := ApplyRemovals(env.remove, slashed.0, d.leaves).value;
      var folded := ApplyRemovals(env.remove, left.0, Folded(d)).value;
      JoinsOutcome(env, d.latestState, d.joins, joined);
      RemovalsOutcome(env.slash, joined, d.slashed, slashed.0, slashed.1);
      RemovalsOutcome(env.remove, slashed.0, d.leaves, left.0, left.1);
      RemovalsOutcome(env.remove, left.0, Folded(d), folded.0, folded.1);
      assert SettlesTo(env, d, settled, joined, slashed.0, left.0, (slashed.1, left.1, folded.1));
    }
    if joined, slashed, left, exits :| SettlesTo(env, d, settled, joined, slashed, left, exits) {
      JoinsOutcome(env, d.latestState, d.joins, joined);
      RemovalsOutcome(env.slash, joined, d.slashed, slashed, exits.0);
      RemovalsOutcome(env.remove, slashed, d.leaves, left, exits.1);
      RemovalsOutcome(env.remove, left, if d.timedout == 0 then [] else [d.timedout], settled.latestState, exits.2);
    }
  }

  // ---------- the calls ----------

  /** A settled dispute is stored, and its latest state opens the next fork now. */
  function StoredWith(c: Chain, settled: Dispute): Chain {
    Chain(c.channelId, c.times, c.now, c.latestFork + 1, c.states[c.latestFork + 1 := settled.latestState],
          c.genesisTimes[c.latestFork + 1 := c.now], c.posted, settled)
  }

  /** createDispute on a dispute that it opens: the evidence must be accepted and count, or the timeout stand, and the
      dispute must be settled. */
  function OpensWith(env: Env, c: Chain, sender: Address, begun: Dispute, proofs: seq<Proof>): Outcome<Chain> {
    match ApplyProofs(env, c, sender, begun, proofs)
    case Revert => Revert
    case Ok(applied) =>
      if !applied.success && applied.dispute.timedout == 0 then Revert
      else match ApplyToLatestState(env, applied.dispute)
        case Revert => Revert
        case Ok(settled) => Ok(StoredWith(c, settled))
  }

  lemma BeginOutcome(env: Env, c: Chain, sender: Address, begun: Dispute, proofs: seq<Proof>)
    ensures BeginDispute(env, c, sender, begun, proofs) == OpensWith(env, c, sender, begun, proofs)
  {}

  lemma CreateParts(env: Env, c: Chain, sender: Address, forkCnt: nat, finalized: Bytes, latest: Bytes,
                    votes: seq<ConfirmedBlock>, timedout: Address, folded: nat, proofs: seq<Proof>,
                    certified: Outcome<bool>, claimed: bool)
    requires certified == FinalizedAndLatest(env, c, forkCnt, finalized, latest, votes,
                                             env.participants(c.StateOf(forkCnt)))
    requires claimed <==> TimeoutAccepted(env, c, sender, forkCnt, latest, votes, timedout, folded)
    ensures var participants := env.participants(c.StateOf(forkCnt));
            var begun := FreshDispute(c, sender, forkCnt, finalized, latest, votes, timedout, folded, participants);
            Execute(env, c, Tx(sender, Create(forkCnt, finalized, latest, votes, timedout, folded, proofs))) ==
            if (c.dispute.channelId == 0 || c.dispute.deadlineTimestamp < c.now)
               && forkCnt == c.latestFork && sender in participants && certified == Ok(true) && claimed
            then OpensWith(env, c, sender, begun, proofs)
            else Revert
  {
    BeginOutcome(env, c, sender, FreshDispute(c, sender, forkCnt, finalized, latest, votes, timedout, folded,
                                              env.participants(c.StateOf(forkCnt))), proofs);
  }

  /** createDispute: no dispute may be in progress, which lasts to the deadline itself; the fork must be the latest, the
      sender one of its participants, and the certificate and the timeout must stand. Then every field of the dispute
      is the call's, except that the votes are appended and the pending joins and leaves, the slashed and, without a
      timeout, the timeout disputer stay. */
  lemma CreateOutcome(env: Env, c: Chain, sender: Address, forkCnt: nat, finalized: Bytes, latest: Bytes,
                      votes: seq<ConfirmedBlock>, timedout: Address, folded: nat, proofs: seq<Proof>)
    ensures var participants := env.participants(if forkCnt in c.states then c.states[forkCnt] else []);
            var before := c.dispute;
            var begun := Dispute(
                            c.channelId, forkCnt, 0, finalized, latest, before.votes + votes, timedout, folded,
                            if timedout == 0 then before.timeoutDisputer
                            else sender, sender, before.joins, before.leaves,
                            before.slashed, participants, before.exits, c.now, c.now + c.times.challenge);
            Execute(env, c, Tx(sender, Create(forkCnt, finalized, latest, votes, timedout, folded, proofs))) ==
            if (before.channelId == 0 || before.deadlineTimestamp < c.now)
               && forkCnt == c.latestFork && sender in participants
               && FinalizedAndLatest(env, c, forkCnt, finalized, latest, votes, participants) == Ok(true)
               && TimeoutAccepted(env, c, sender, forkCnt, latest, votes, timedout, folded)
            then OpensWith(env, c, sender, begun, proofs)
            else Revert
  {
    var participants := env.participants(c.StateOf(forkCnt));
    CreateParts(env, c, sender, forkCnt, finalized, latest, votes, timedout, folded, proofs,
                FinalizedAndLatest(env, c, forkCnt, finalized, latest, votes, participants),
                TimeoutAccepted(env, c, sender, forkCnt, latest, votes, timedout, folded));
  }

  /** challengeDispute on the dispute that its evidence left: the certificate must stand, both sides must have votes,
      the new ones must not begin below the old, and the dispute, now the sender's, must be settled. */
  function ReplacesWith(env: Env, c: Chain, sender: Address, d: Dispute, votes: seq<ConfirmedBlock>, finalized: Bytes,
                        latest: Bytes): Outcome<Chain>
  {
    var challenged := Dispute(
                        d.channelId, d.forkCnt, d.challengeCnt + 1, finalized, latest, d.votes + votes, d.timedout,
                        d.foldedTransactionCnt, d.timeoutDisputer, sender, d.joins, d.leaves, d.slashed,
                        d.participants, d.exits, d.creationTimestamp, c.now + c.times.challenge);
    if FinalizedAndLatest(env, c, d.forkCnt, finalized, latest, votes, d.participants) == Ok(true)
       && d.votes != [] && votes != []
       && d.votes[0].block.transaction.header.transactionCnt <= votes[0].block.transaction.header.transactionCnt
    then match ApplyToLatestState(env, challenged)
      case Revert => Revert
      case Ok(settled) => Ok(StoredWith(c, settled))
    else Revert
  }

  lemma ReplaceOutcome(env: Env, c: Chain, sender: Address, d: Dispute, votes: seq<ConfirmedBlock>, finalized: Bytes,
                       latest: Bytes)
    ensures ReplaceDispute(env, c, sender, d, votes, finalized, latest)
         == ReplacesWith(env, c, sender, d, votes, finalized, latest)
  {}

  /** challengeDispute: there is a dispute, over the named fork and with the named number of challenges, before its
      deadline; the sender is a participant and was not slashed; and some evidence counts. */
  lemma ChallengeOutcome(env: Env, c: Chain, sender: Address, forkCnt: nat, challengeCnt: nat, proofs: seq<Proof>,
                         votes: seq<ConfirmedBlock>, finalized: Bytes, latest: Bytes)
    ensures var d := c.dispute;
            Execute(env, c, Tx(sender, Challenge(forkCnt, challengeCnt, proofs, votes, finalized, latest))) ==
            if d.channelId != 0 && d.forkCnt == forkCnt && d.challengeCnt == challengeCnt
               && c.now < d.deadlineTimestamp && sender in d.participants && sender !in d.slashed
            then match ApplyProofs(env, c, sender, d, proofs)
              case Revert => Revert
              case Ok(applied) =>
                if applied.success then ReplacesWith(env, c, sender, applied.dispute, votes, finalized, latest)
                else Revert
            else Revert
  {
    var applied := ApplyProofs(env, c, sender, c.dispute, proofs);
    if applied.Ok? { ReplaceOutcome(env, c, sender, applied.value.dispute, votes, finalized, latest); }
  }

  /** postBlockCalldata: the sender is the author and has signed the block, which is neither ahead of the chain time nor
      further behind it than the three waits together. It is stored under its height and author with the time now. */
  lemma PostOutcome(env: Env, c: Chain, sender: Address, signed: SignedBlock)
    ensures var header, wait := signed.block.transaction.header, c.times.p2p + c.times.agreement
            + c.times.chainFallback;
            var data := if header.forkCnt in c.posted then c.posted[header.forkCnt] else ForkData(map[], []);
            var key := (header.transactionCnt, sender);
            Execute(env, c, Tx(sender, Post(signed))) ==
            if env.recover(env.blockHash(signed.block), signed.signature) != Some(sender)
               || header.participant != sender
               || wait > c.now || header.timestamp < c.now - wait || header.timestamp > c.now
            then Revert
            else if header.channelId != c.channelId then Ok(c)
            else Ok(c.(posted := c.posted[header.forkCnt := ForkData(data.calldata[key := Calldata(signed, c.now)],
                                                                     data.keys + [key])]))
  {
    EV.OwnSignature(env, sender, env.blockHash(signed.block), signed.signature);
  }

  /** Time passes; nothing else does anything without a call. */
  lemma TickOutcome(env: Env, c: Chain, sender: Address, seconds: nat)
    ensures Execute(env, c, Tx(sender, Tick(seconds))) == Ok(c.(now := c.now + seconds))
  {}

  // ---------- what was posted ----------

  /** An accepted post by `a` at the height. */
  predicate Posts(env: Env, c: Chain, tx: Tx, fork: nat, height: nat, a: Address) {
    && tx.call.Post? && Execute(env, c, tx).Ok? && tx.sender == a
    && var header := tx.call.signed.block.transaction.header;
    && header.channelId == c.channelId && header.forkCnt == fork && header.transactionCnt == height
  }

  lemma TimePosted(env: Env, c: Chain, tx: Tx, fork: nat, height: nat, a: Address)
    ensures Next(env, c, tx).DataOf(fork).TimeOf((height, a)) ==
            if Posts(env, c, tx, fork, height, a) then c.now else c.DataOf(fork).TimeOf((height, a))
  {
    match tx.call
    case Post(signed) => PostOutcome(env, c, tx.sender, signed);
    case _ =>
  }

  lemma {:induction false} TimeGrows(env: Env, c: Chain, txs: seq<Tx>, i: nat)
    requires Consistent(c) && i <= |txs|
    ensures Run(env, c, txs[..i]).now <= Run(env, c, txs).now
  {
    if i == |txs| {
      assert txs[..i] == txs;
    } else {
      TimeGrows(env, c, txs[..|txs| - 1], i);
      assert txs[..|txs| - 1][..i] == txs[..i];
      RunStep(env, c, txs);
    }
  }

  predicate SomePosts(env: Env, c: Chain, txs: seq<Tx>, fork: nat, height: nat, a: Address) {
    exists i :: 0 <= i < |txs| && PostsAt(env, c, txs, i, fork, height, a)
  }

  /** Call `i` of the run is such a post, at a time other than 0. */
  predicate PostsAt(env: Env, c: Chain, txs: seq<Tx>, i: nat, fork: nat, height: nat, a: Address)
    requires i < |txs|
  {
    Posts(env, Run(env, c, txs[..i]), txs[i], fork, height, a) && Run(env, c, txs[..i]).now > 0
  }

  lemma PostsStep(env: Env, c: Chain, txs: seq<Tx>, fork: nat, height: nat, a: Address)
    requires txs != []
    ensures SomePosts(env, c, txs, fork, height, a) <==>
            SomePosts(env, c, txs[..|txs| - 1], fork, height, a) || PostsAt(env, c, txs, |txs| - 1, fork, height, a)
  {
    var front := txs[..|txs| - 1];
    forall i | 0 <= i < |front|
      ensures PostsAt(env, c, front, i, fork, height, a) <==> PostsAt(env, c, txs, i, fork, height, a)
    {
      assert front[..i] == txs[..i];
    }
  }

  /** A block is found on chain exactly when its author has posted it in the run, at a time other than 0. */
  lemma {:induction false} FoundWhenPosted(env: Env, c: Chain, txs: seq<Tx>, fork: nat, height: nat, a: Address)
    requires Consistent(c) && fork !in c.posted
    ensures Run(env, c, txs).CalldataFound(fork, height, a) <==> SomePosts(env, c, txs, fork, height, a)
  {
    if txs != [] {
      var last := |txs| - 1;
      var before := Run(env, c, txs[..last]);
      FoundWhenPosted(env, c, txs[..last], fork, height, a);
      TimePosted(env, before, txs[last], fork, height, a);
      PostsStep(env, c, txs, fork, height, a);
      if SomePosts(env, c, txs[..last], fork, height, a) {
        var i :| 0 <= i < last && PostsAt(env, c, txs[..last], i, fork, height, a);
        TimeGrows(env, c, txs[..last], i);
      }
    }
  }

  // ---------- the latest posted time ----------

  /** An accepted post on the fork, at the height or below, by anybody. */
  predicate PostsUpTo(env: Env, c: Chain, tx: Tx, fork: nat, maxHeight: nat) {
    tx.call.Post? && tx.call.signed.block.transaction.header.transactionCnt <= maxHeight
    && Posts(env, c, tx, fork, tx.call.signed.block.transaction.header.transactionCnt, tx.sender)
  }

  lemma LatestAfterPost(data: ForkData, after: ForkData, key: (nat, Address), now: nat, maxHeight: nat)
    requires after.keys == data.keys + [key]
    requires forall k :: data.TimeOf(k) <= now && after.TimeOf(k) == if k == key then now else data.TimeOf(k)
    ensures after.Latest(maxHeight, |after.keys|) ==
            if key.0 <= maxHeight then now else data.Latest(maxHeight, |data.keys|)
  {
    JT.ChainLatestIsMaximum(data, maxHeight, |data.keys|);
    JT.ChainLatestIsMaximum(after, maxHeight, |after.keys|);
    assert after.keys[|data.keys|] == key;
    forall i | 0 <= i < |data.keys| ensures after.keys[i] == data.keys[i] {}
  }

  lemma TimesAfterPost(env: Env, c: Chain, sender: Address, signed: SignedBlock, key: (nat, Address))
    requires Execute(env, c, Tx(sender, Post(signed))).Ok?
    requires signed.block.transaction.header.channelId == c.channelId
    ensures var fork, posted := signed.block.transaction.header.forkCnt,
            (signed.block.transaction.header.transactionCnt, sender);
            var data, after := c.DataOf(fork), Execute(env, c, Tx(sender, Post(signed))).value.DataOf(fork);
            after.keys == data.keys + [posted] && after.TimeOf(key) == if key == posted then c.now else data.TimeOf(key)
  {
    PostOutcome(env, c, sender, signed);
  }

  lemma AcceptedPostIsLatest(env: Env, c: Chain, sender: Address, signed: SignedBlock, maxHeight: nat)
    requires Consistent(c) && Execute(env, c, Tx(sender, Post(signed))).Ok?
    requires signed.block.transaction.header.channelId == c.channelId
    ensures var header, after := signed.block.transaction.header, Execute(env, c, Tx(sender, Post(signed))).value;
            after.LatestPosted(header.forkCnt, maxHeight) ==
            if header.transactionCnt <= maxHeight then c.now else c.LatestPosted(header.forkCnt, maxHeight)
  {
    var fork, posted := signed.block.transaction.header.forkCnt,
                        (signed.block.transaction.header.transactionCnt, sender);
    var data, after := c.DataOf(fork), Execute(env, c, Tx(sender, Post(signed))).value.DataOf(fork);
    forall k ensures data.TimeOf(k) <= c.now && after.TimeOf(k) == if k == posted then c.now else data.TimeOf(k) {
      TimesAfterPost(env, c, sender, signed, k);
    }
    TimesAfterPost(env, c, sender, signed, posted);
    LatestAfterPost(data, after, posted, c.now, maxHeight);
  }

  lemma LatestStep(env: Env, c: Chain, tx: Tx, fork: nat, maxHeight: nat)
    requires Consistent(c)
    ensures Next(env, c, tx).LatestPosted(fork, maxHeight) ==
            if PostsUpTo(env, c, tx, fork, maxHeight) then c.now else c.LatestPosted(fork, maxHeight)
  {
    if tx.call.Post? && Execute(env, c, tx).Ok? && tx.call.signed.block.transaction.header.channelId == c.channelId
       && tx.call.signed.block.transaction.header.forkCnt == fork
    {
      AcceptedPostIsLatest(env, c, tx.sender, tx.call.signed, maxHeight);
    } else {
      assert Next(env, c, tx).DataOf(fork) == c.DataOf(fork) by {
        if tx.call.Post? { PostOutcome(env, c, tx.sender, tx.call.signed); }
      }
    }
  }

  /** When the last of these posts of the run was made; 0 without any. */
  function TimeOfLastPost(env: Env, c: Chain, txs: seq<Tx>, fork: nat, maxHeight: nat): nat {
    if txs == [] then 0
    else
      var front := txs[..|txs| - 1];
      if PostsUpTo(env, Run(env, c, front), txs[|txs| - 1], fork, maxHeight) then Run(env, c, front).now
      else TimeOfLastPost(env, c, front, fork, maxHeight)
  }

  /** The latest posted time up to a height is the time of the last such post of the run. */
  lemma {:induction false} LatestIsLastPost(env: Env, c: Chain, txs: seq<Tx>, fork: nat, maxHeight: nat)
    requires Consistent(c) && fork !in c.posted
    ensures Run(env, c, txs).LatestPosted(fork, maxHeight) == TimeOfLastPost(env, c, txs, fork, maxHeight)
  {
    if txs != [] {
      var last := |txs| - 1;
      LatestIsLastPost(env, c, txs[..last], fork, maxHeight);
      RunKeeps(env, c, txs[..last]);
      LatestStep(env, Run(env, c, txs[..last]), txs[last], fork, maxHeight);
    }
  }
}
