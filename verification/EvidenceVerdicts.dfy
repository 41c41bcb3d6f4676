/** What each piece of evidence needs, and what it leaves of the dispute, in the fields of the blocks and of the dispute
    (DisputeManagerFacet.sol:352-822). */
module EvidenceVerdicts {
  import opened Types
  import opened Storage
  import opened StateChannelUtilLibrary
  import opened DisputeRules

  // ---------- common terms ----------

  /** The block is of the dispute's channel and fork. */
  predicate InDispute(d: Dispute, block: Block) {
    block.transaction.header.channelId == d.channelId && block.transaction.header.forkCnt == d.forkCnt
  }

  /** The slashed list after a punishment: nobody stands in it twice. */
  function Condemn(slashed: seq<Address>, a: Address): seq<Address> {
    if a in slashed then slashed else slashed + [a]
  }

  /** Signature by signature, these addresses signed the hash. */
  predicate AreSigners(env: Env, hash: Hash, signatures: seq<Signature>, signers: seq<Address>) {
    && |signers| == |signatures|
    && forall i :: 0 <= i < |signers| ==> env.recover(hash, signatures[i]) == Some(signers[i])
  }

  /** Whether the addresses that signed the hash contain the required ones, each as often as it is required; too few
      signatures are refused unread. */
  ghost predicate SignedByAll(env: Env, required: seq<Address>, hash: Hash, signatures: seq<Signature>) {
    && |required| <= |signatures|
    && exists signers :: AreSigners(env, hash, signatures, signers) && multiset(required) <= multiset(signers)
  }

  lemma {:induction false} RecoveredAre(env: Env, hash: Hash, signatures: seq<Signature>)
    requires Recoverable(env, hash, signatures)
    ensures AreSigners(env, hash, signatures, Recovered(env, hash, signatures))
  {
    if signatures != [] { RecoveredAre(env, hash, signatures[..|signatures| - 1]); }
  }

  /** The threshold check in these terms; it reverts on enough signatures of which one can not be read. */
  lemma ThresholdVerdict(env: Env, required: seq<Address>, hash: Hash, signatures: seq<Signature>)
    ensures ThresholdSigned(env, required, hash, signatures) == Ok(true) <==>
            SignedByAll(env, required, hash, signatures)
    ensures ThresholdSigned(env, required, hash, signatures) == Revert <==>
            |required| <= |signatures| && exists i :: 0 <= i < |signatures| && env.recover(hash, signatures[i]).None?
  {
    if Recoverable(env, hash, signatures) {
      RecoveredAre(env, hash, signatures);
      forall signers | AreSigners(env, hash, signatures, signers) ensures signers == Recovered(env, hash, signatures) {}
    } else {
      var i :| 0 <= i < |signatures| && env.recover(hash, signatures[i]).None?;
      forall signers ensures !AreSigners(env, hash, signatures, signers) {
        if |signers| == |signatures| { assert env.recover(hash, signatures[i]) != Some(signers[i]); }
      }
    }
  }

  // ---------- fold rechallenge ----------

  /** Accepted exactly when everyone signed the block of the claimed timeout; the timeout is undone, and who claimed it
      is slashed. */
  lemma FoldRechallengeVerdict(env: Env, c: Chain, sender: Address, d: Dispute, block: Block,
                               signatures: seq<Signature>)
    ensures ApplyProof(env, c, sender, d, Proof.FoldRechallenge(block, signatures)) ==
            if InDispute(d, block) && block.transaction.header.transactionCnt == d.foldedTransactionCnt
               && SignedByAll(env, d.participants, env.blockHash(block), signatures)
            then Ok(Applied(d.(timedout := 0, slashed := Condemn(d.slashed, d.timeoutDisputer)),
                            d.timeoutDisputer !in d.slashed))
            else Revert
  {
    ThresholdVerdict(env, d.participants, env.blockHash(block), signatures);
  }

  // ---------- double signs ----------

  /** Two different blocks of one height of the dispute, with signatures by one address. */
  predicate IsDoubleSign(env: Env, d: Dispute, pair: (SignedBlock, SignedBlock)) {
    var block1, block2 := pair.0.block, pair.1.block;
    && InDispute(d, block1) && InDispute(d, block2)
    && block1.transaction.header.transactionCnt == block2.transaction.header.transactionCnt
    && env.blockHash(block1) != env.blockHash(block2)
    && env.recover(env.blockHash(block1), pair.0.signature).Some?
    && env.recover(env.blockHash(block2), pair.1.signature) == env.recover(env.blockHash(block1), pair.0.signature)
  }

  function SignerOfPair(env: Env, pair: (SignedBlock, SignedBlock)): Option<Address> {
    env.recover(env.blockHash(pair.0.block), pair.0.signature)
  }

  /** The signer of one of the first `n` pairs was not slashed before. */
  predicate NewBy(env: Env, d: Dispute, pairs: seq<(SignedBlock, SignedBlock)>, n: nat)
    requires n <= |pairs|
  {
    exists i :: 0 <= i < n && SignerOfPair(env, pairs[i]).Some? && SignerOfPair(env, pairs[i]).value !in d.slashed
  }

  /** Pair `i` undoes the timeout: it is of a lower height, and by then somebody new was slashed. */
  predicate Undoes(env: Env, d: Dispute, pairs: seq<(SignedBlock, SignedBlock)>, i: nat)
    requires i < |pairs|
  {
    pairs[i].0.block.transaction.header.transactionCnt < d.foldedTransactionCnt && NewBy(env, d, pairs, i + 1)
  }

  predicate SomeUndoes(env: Env, d: Dispute, pairs: seq<(SignedBlock, SignedBlock)>) {
    exists i :: 0 <= i < |pairs| && Undoes(env, d, pairs, i)
  }

  lemma NewByStep(env: Env, d: Dispute, pairs: seq<(SignedBlock, SignedBlock)>, n: nat)
    requires n < |pairs|
    ensures NewBy(env, d, pairs[..n], n) <==> NewBy(env, d, pairs, n)
    ensures NewBy(env, d, pairs, n + 1) <==>
            NewBy(env, d, pairs, n)
            || (SignerOfPair(env, pairs[n]).Some? && SignerOfPair(env, pairs[n]).value !in d.slashed)
  {}

  /** What the pairs leave of the dispute. */
  ghost predicate DoubleSignsLeave(env: Env, d: Dispute, pairs: seq<(SignedBlock, SignedBlock)>, after: Applied) {
    var undone := SomeUndoes(env, d, pairs);
    && after.success == NewBy(env, d, pairs, |pairs|)
    && d.slashed <= after.dispute.slashed && (Distinct(d.slashed) ==> Distinct(after.dispute.slashed))
    && (forall a :: a in after.dispute.slashed <==>
          a in d.slashed || exists i :: 0 <= i < |pairs| && SignerOfPair(env, pairs[i]) == Some(a))
    && after.dispute == d.(slashed := after.dispute.slashed, timedout := if undone then 0 else d.timedout,
                           timeoutDisputer := if undone then 0 else d.timeoutDisputer)
  }

  lemma {:induction false} PairsVerdict(env: Env, d: Dispute, pairs: seq<(SignedBlock, SignedBlock)>)
    ensures ApplyDoubleSign(env, d, pairs).Ok? <==> forall i :: 0 <= i < |pairs| ==> IsDoubleSign(env, d, pairs[i])
    ensures ApplyDoubleSign(env, d, pairs).Ok? ==> DoubleSignsLeave(env, d, pairs, ApplyDoubleSign(env, d, pairs).value)
  {
    if pairs != [] {
      var last := |pairs| - 1;
      PairsVerdict(env, d, pairs[..last]);
      assert forall i :: 0 <= i < last ==> pairs[..last][i] == pairs[i];
      if ApplyDoubleSign(env, d, pairs[..last]).Ok? {
        OneMorePair(env, d, pairs, ApplyDoubleSign(env, d, pairs[..last]).value);
      }
    }
  }

  lemma OneMorePair(env: Env, d: Dispute, pairs: seq<(SignedBlock, SignedBlock)>, before: Applied)
    requires pairs != [] && DoubleSignsLeave(env, d, pairs[..|pairs| - 1], before)
    ensures var after := ApplyDoubleSignPair(env, before, pairs[|pairs| - 1]);
            && (after.Ok? <==> IsDoubleSign(env, d, pairs[|pairs| - 1]))
            && (after.Ok? ==> DoubleSignsLeave(env, d, pairs, after.value))
  {
    var last := |pairs| - 1;
    var after := ApplyDoubleSignPair(env, before, pairs[last]);
    if after.Ok? {
      var a := SignerOfPair(env, pairs[last]).value;
      NewByStep(env, d, pairs, last);
      assert after.value.success <==> NewBy(env, d, pairs, |pairs|);
      forall x
        ensures x in after.value.dispute.slashed <==>
                x in d.slashed || exists i :: 0 <= i < |pairs| && SignerOfPair(env, pairs[i]) == Some(x)
      {
        assert x in after.value.dispute.slashed <==> x in before.dispute.slashed || x == a;
        assert SignerOfPair(env, pairs[last]) == Some(a);
        if i :| 0 <= i < |pairs| && SignerOfPair(env, pairs[i]) == Some(x) {
          assert i < last ==> pairs[..last][i] == pairs[i];
        }
        if i :| 0 <= i < last && SignerOfPair(env, pairs[..last][i]) == Some(x) { assert pairs[i] == pairs[..last][i]; }
      }
      forall i | 0 <= i < last ensures Undoes(env, d, pairs, i) <==> Undoes(env, d, pairs[..last], i) {
        assert NewBy(env, d, pairs[..last], i + 1) <==> NewBy(env, d, pairs, i + 1) by {
          assert forall k :: 0 <= k <= i ==> pairs[..last][k] == pairs[k];
        }
      }
      UndoneStep(env, d, pairs);
    }
  }

  lemma UndoneStep(env: Env, d: Dispute, pairs: seq<(SignedBlock, SignedBlock)>)
    requires pairs != []
    requires forall i :: 0 <= i < |pairs| - 1 ==>
               (Undoes(env, d, pairs, i) <==> Undoes(env, d, pairs[..|pairs| - 1], i))
    ensures SomeUndoes(env, d, pairs) <==>
            SomeUndoes(env, d, pairs[..|pairs| - 1]) || Undoes(env, d, pairs, |pairs| - 1)
  {
    var front := pairs[..|pairs| - 1];
    if i :| 0 <= i < |pairs| - 1 && Undoes(env, d, front, i) { assert Undoes(env, d, pairs, i); }
    if i :| 0 <= i < |pairs| && Undoes(env, d, pairs, i) { assert i < |pairs| - 1 ==> Undoes(env, d, front, i); }
  }

  /** Accepted exactly when every pair is a double sign. */
  lemma DoubleSignVerdict(env: Env, c: Chain, sender: Address, d: Dispute, pairs: seq<(SignedBlock, SignedBlock)>)
    ensures var applied := ApplyProof(env, c, sender, d, Proof.DoubleSign(pairs));
            && (applied.Ok? <==> forall i :: 0 <= i < |pairs| ==> IsDoubleSign(env, d, pairs[i]))
            && (applied.Ok? ==> DoubleSignsLeave(env, d, pairs, applied.value))
  {
    PairsVerdict(env, d, pairs);
  }

  // ---------- incorrect data ----------

  /** The pre-state has the hash of the fork's genesis state. */
  predicate OnGenesisState(env: Env, c: Chain, d: Dispute, preState: Bytes) {
    env.keccak(preState) == env.keccak(if d.forkCnt in c.states then c.states[d.forkCnt] else [])
  }

  /** Both blocks are of the dispute and signed by their authors, and they link to the pre-state. */
  predicate IsAboutSuccessor(env: Env, c: Chain, d: Dispute, block1: SignedBlock, block2: SignedBlock, preState: Bytes)
  {
    && env.recover(env.blockHash(block1.block), block1.signature) == Some(block1.block.transaction.header.participant)
    && env.recover(env.blockHash(block2.block), block2.signature) == Some(block2.block.transaction.header.participant)
    && InDispute(d, block1.block) && InDispute(d, block2.block)
    && block2.block.previousStateHash == env.keccak(preState)
    && (OnGenesisState(env, c, d, preState) || block1.block.stateHash == env.keccak(preState))
  }

  /** The time that the block must not be older than. */
  function TimeBefore(env: Env, c: Chain, d: Dispute, block1: Block, preState: Bytes): nat {
    if !OnGenesisState(env, c, d, preState) then block1.transaction.header.timestamp
    else if d.forkCnt in c.genesisTimes then c.genesisTimes[d.forkCnt] else 0
  }

  /** The last time that the block may have: counted from the later of the time before and the latest post at most at
      its height. */
  function LatestTime(c: Chain, before: nat, block: Block): nat {
    var posted := c.LatestPosted(block.transaction.header.forkCnt, block.transaction.header.transactionCnt);
    (if posted > before then posted else before) + c.times.p2p
  }

  /** Too old, too late, refused by the machine, or played to another state than it names. */
  predicate IsWrong(env: Env, c: Chain, before: nat, preState: Bytes, block: Block) {
    var executed := env.step(preState, block.transaction);
    || block.transaction.header.timestamp < before
    || block.transaction.header.timestamp > LatestTime(c, before, block)
    || executed == None
    || env.keccak(executed.value) != block.stateHash
  }

  /** The whole verdict. Not about a successor: a revert. Not too old, but the last time is beyond 2^256: a revert.
      Wrong: the author is slashed, which is a success unless it was before, and then a timeout above the first block is
      undone. Otherwise nothing changes. */
  lemma IncorrectDataVerdict(env: Env, c: Chain, sender: Address, d: Dispute, block1: SignedBlock, block2: SignedBlock,
                             preState: Bytes)
    ensures var before, a := TimeBefore(env, c, d, block1.block, preState), block2.block.transaction.header.participant;
            var undone := a !in d.slashed && block1.block.transaction.header.transactionCnt < d.foldedTransactionCnt;
            ApplyProof(env, c, sender, d, Proof.IncorrectData(block1, block2, preState)) ==
            if !IsAboutSuccessor(env, c, d, block1, block2, preState) then Revert
            else if block2.block.transaction.header.timestamp >= before
                 && LatestTime(c, before, block2.block) > UINT_MAX
            then Revert
            else if IsWrong(env, c, before, preState, block2.block)
            then Ok(Applied(d.(slashed := Condemn(d.slashed, a), timedout := if undone then 0 else d.timedout,
                               timeoutDisputer := if undone then 0 else d.timeoutDisputer), a !in d.slashed))
            else Ok(Applied(d, false))
  {}

  // ---------- the other kinds ----------

  /** Accepted exactly for a block of the dispute that the poster signed, at or above the last vote. */
  lemma NewerStateVerdict(env: Env, c: Chain, sender: Address, d: Dispute, block: Block, confirmation: Signature)
    ensures ApplyProof(env, c, sender, d, Proof.NewerState(block, confirmation)) ==
            if InDispute(d, block)
               && env.recover(env.blockHash(block), confirmation) == Some(d.postedStateDisputer)
               && d.votes != []
               && block.transaction.header.transactionCnt
                  >= d.votes[|d.votes| - 1].block.transaction.header.transactionCnt
            then Ok(Applied(d.(slashed := Condemn(d.slashed, d.postedStateDisputer)),
                            d.postedStateDisputer !in d.slashed))
            else Revert
  {}

  /** The author of the last vote is timed out, and the sender counts as who claimed it, exactly when some vote has the
      named height, the height is below the folded one, and the author has posted nothing there, or only after the
      dispute was created. */
  lemma FoldPriorBlockVerdict(env: Env, c: Chain, sender: Address, d: Dispute, height: nat)
    ensures var named := exists i :: 0 <= i < |d.votes| && d.votes[i].block.transaction.header.transactionCnt == height;
            ApplyProof(env, c, sender, d, Proof.FoldPriorBlock(height)) ==
            if !named || height >= d.foldedTransactionCnt then Revert
            else
              var author := d.votes[|d.votes| - 1].block.transaction.header.participant;
              var data := if d.forkCnt in c.posted then c.posted[d.forkCnt].calldata else map[];
              if (height, author) in data && 0 < data[(height, author)].timestamp <= d.creationTimestamp then Revert
              else Ok(Applied(d.(timedout := author, timeoutDisputer := sender), true))
  {
    if i :| 0 <= i < |d.votes| && d.votes[i].block.transaction.header.transactionCnt == height {
      assert d.votes[i] in d.votes && d.votes[i].block.Height() == height;
    }
  }

  /** Slashes the author, exactly for a block of the dispute, signed by an author that is a participant, and ahead of
      the chain time. */
  lemma BlockTooFarInFutureVerdict(env: Env, c: Chain, sender: Address, d: Dispute, early: SignedBlock)
    ensures var a := early.block.transaction.header.participant;
            ApplyProof(env, c, sender, d, Proof.BlockTooFarInFuture(early)) ==
            if InDispute(d, early.block) && a in d.participants && early.block.transaction.header.timestamp > c.now
               && env.recover(env.blockHash(early.block), early.signature) == Some(a)
            then Ok(Applied(d.(slashed := Condemn(d.slashed, a)), a !in d.slashed))
            else Revert
  {}

  /** A join is added to the pending ones exactly when everyone signed it, the joiner itself too, it is for this
      channel, by somebody who is neither a participant nor pending, its deadline has passed, it is the sender's turn,
      and the hook of the contract takes it. */
  lemma JoinVerdict(env: Env, c: Chain, sender: Address, d: Dispute, joiner: SignedJoinChannel,
                    confirmations: seq<Signature>)
    ensures var jc := joiner.joinChannel;
            ApplyProof(env, c, sender, d, Proof.Join(joiner, confirmations)) ==
            if SignedByAll(env, d.participants, env.signedJoinHash(joiner), confirmations)
               && env.recover(env.joinHash(jc), joiner.signature) == Some(jc.participant)
               && jc.channelId == d.channelId
               && jc.participant !in d.participants
               && (forall i :: 0 <= i < |d.joins| ==> d.joins[i].participant != jc.participant)
               && c.now > jc.deadlineTimestamp
               && sender == env.nextToWrite(d.latestState)
               && env.addComposable(jc)
            then Ok(Applied(d.(joins := d.joins + [jc]), true))
            else Revert
  {
    var jc := joiner.joinChannel;
    ThresholdVerdict(env, d.participants, env.signedJoinHash(joiner), confirmations);
    OwnSignature(env, jc.participant, env.joinHash(jc), joiner.signature);
    assert (forall other <- d.joins :: other.participant != jc.participant) <==>
           (forall i :: 0 <= i < |d.joins| ==> d.joins[i].participant != jc.participant);
  }

  /** A request to leave changes nothing, and never makes a call succeed. */
  lemma LeaveChannelVerdict(env: Env, c: Chain, sender: Address, d: Dispute)
    ensures ApplyProof(env, c, sender, d, LeaveChannelForce) == Ok(Applied(d, false))
  {}

  /** A threshold of one address and one signature. */
  lemma OwnSignature(env: Env, a: Address, hash: Hash, signature: Signature)
    ensures ThresholdSigned(env, [a], hash, [signature]) ==
            match env.recover(hash, signature) case None => Revert case Some(signer) => Ok(signer == a)
  {
    var signatures := [signature];
    if env.recover(hash, signature).Some? {
      RecoveredAre(env, hash, signatures);
      var signers := Recovered(env, hash, signatures);
      assert signers == [env.recover(hash, signature).value];
      assert multiset([a]) <= multiset(signers) <==> a == signers[0] by {
        if multiset([a]) <= multiset(signers) { assert a in multiset([a]); assert a in multiset(signers); }
      }
    } else {
      assert !Recoverable(env, hash, signatures) by { assert env.recover(hash, signatures[0]).None?; }
    }
  }
}
