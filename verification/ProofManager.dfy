/** src/ProofManager.ts: the evidence a client makes, and what the contract does with it. */
module ProofManager {
  import opened Types
  import opened Storage
  import opened StateChannelUtilLibrary
  import opened DisputeRules
  import opened ReplicaRules
  import opened ReplicaRuns
  import opened AccountableSafety
  import C = Certificates

  /** BlockUtils.getParticipantSignature: the first signature by the participant. */
  function ParticipantSignature(env: Env, block: Block, signatures: seq<Signature>,
                                p: Address): (found: Option<Signature>)
    ensures found.Some? <==> env.Signs(block, signatures, p)
    ensures found.Some? ==> found.value in signatures && env.Signer(block, found.value) == Some(p)
  {
    if signatures == [] then None
    else if env.Signer(block, signatures[0]) == Some(p) then Some(signatures[0])
    else
      assert forall s <- signatures :: s == signatures[0] || s in signatures[1..];
      ParticipantSignature(env, block, signatures[1..], p)
  }

  /** The same as it is read, signature by signature: one that can not be read before the match is an exception. */
  function ReadParticipantSignature(env: Env, block: Block, signatures: seq<Signature>, p: Address)
    : (r: Outcome<Option<Signature>>)
    ensures r.Ok? ==> r.value == ParticipantSignature(env, block, signatures, p)
    ensures r == Revert <==> exists i :: 0 <= i < |signatures| && env.Signer(block, signatures[i]).None?
                                     && forall j :: 0 <= j < i ==> env.Signer(block, signatures[j]) != Some(p)
  {
    if signatures == [] then Ok(None)
    else if env.Signer(block, signatures[0]).None? then Revert
    else if env.Signer(block, signatures[0]) == Some(p) then Ok(Some(signatures[0]))
    else ReadParticipantSignature(env, block, signatures[1..], p)
  }

  /** AgreementManager.getDoubleSignedBlock. */
  function DoubleSignedBlock(env: Env, r: Replica, signed: SignedBlock): Option<SignedBlock> {
    var block := signed.block;
    if !r.Known(block.Fork(), block.Height()) then None
    else
      var existing := r.AgreementAt(block.Fork(), block.Height());
      if existing.block == block || existing.block.Author() != block.Author() then None
      else match ParticipantSignature(env, existing.block, existing.signatures, block.Author())
        case None => None
        case Some(signature) => Some(SignedBlock(existing.block, signature))
  }

  function DoubleSignPairs(env: Env, r: Replica, conflicting: seq<SignedBlock>): seq<(SignedBlock, SignedBlock)> {
    if conflicting == [] then []
    else
      (match DoubleSignedBlock(env, r, conflicting[0])
       case None => []
       case Some(existing) => [(conflicting[0], existing)])
      + DoubleSignPairs(env, r, conflicting[1..])
  }

  function CreateDoubleSignProof(env: Env, r: Replica, conflicting: seq<SignedBlock>): Proof {
    Proof.DoubleSign(DoubleSignPairs(env, r, conflicting))
  }

  /** A block below the next height of the latest fork never reaches the internal-error throw. */
  lemma PastBlockIsDisputed(c: Client, r: Replica, signed: SignedBlock, clock: nat, chainTime: nat)
    requires Authentic(c, signed) == Some(true)
    requires r.forks != [] && signed.block.Fork() == r.LatestFork() && signed.block.Height() < r.NextHeight()
    requires signed.block.Fork() !in r.disputed && !r.InChain(signed.block) && !r.Queued(signed.block)
    requires r.InLatestFork(signed.block.Author())
    ensures var v := ValidateSignedBlock(c, r, signed, clock, chainTime);
            && v.replica == r
            && v.verdict == Disputed(Some(
                 if r.AgreementAt(signed.block.Fork(), signed.block.Height()).block.Author() == signed.block.Author()
                 then AgreementFlag.DoubleSign else AgreementFlag.IncorrectData))
  {}

  lemma RecordedIsAuthenticated(c: Client, machine: Bytes, steps: seq<Step>, fork: nat, height: nat)
    requires c.OwnsSigner() && Run(c, machine, steps).replica.Known(fork, height)
    ensures Authenticated(c, fork, height, Run(c, machine, steps).replica.AgreementAt(fork, height))
  {
    RunKeeps(c, machine, steps);
    var t := Run(c, machine, steps);
    assert ForkSound(c, t.replica.forks[fork], fork, t.Sound(fork));
  }

  lemma ExistingConvicts(c: Client, r: Replica, signed: SignedBlock)
    requires signed.block.ChannelOf() == c.channelId && Check(c.env, r, signed) == Some(AgreementFlag.DoubleSign)
    requires Authenticated(c, signed.block.Fork(), signed.block.Height(),
                           r.AgreementAt(signed.block.Fork(), signed.block.Height()))
    ensures var existing := DoubleSignedBlock(c.env, r, signed);
            && existing.Some? && existing.value.block != signed.block
            && (c.env.blockHash(signed.block) != c.env.blockHash(existing.value.block) ==>
                  Convicts(c.env, c.channelId, signed.block.Fork(), signed, existing.value, signed.block.Author()))
  {}

  lemma OnePair(env: Env, r: Replica, signed: SignedBlock)
    requires DoubleSignedBlock(env, r, signed).Some?
    ensures CreateDoubleSignProof(env, r, [signed])
            == Proof.DoubleSign([(signed, DoubleSignedBlock(env, r, signed).value)])
  {
    assert [signed][1..] == [];
    assert DoubleSignPairs(env, r, []) == [];
  }

  /** A list of conflicting blocks is proved block by block, in order. */
  lemma {:induction false} PairsOfMore(env: Env, r: Replica, first: seq<SignedBlock>, second: seq<SignedBlock>)
    ensures DoubleSignPairs(env, r, first + second) == DoubleSignPairs(env, r, first) + DoubleSignPairs(env, r, second)
  {
    if first == [] {
      assert first + second == second;
    } else {
      PairsOfMore(env, r, first[1..], second);
      assert (first + second)[1..] == first[1..] + second;
    }
  }

  /** Another block by the author stands at the block's coordinates. */
  predicate Conflicts(r: Replica, block: Block) {
    var header := block.transaction.header;
    && header.forkCnt < |r.forks| && header.transactionCnt < |r.forks[header.forkCnt].agreements|
    && var held := r.forks[header.forkCnt].agreements[header.transactionCnt].block;
       held != block && held.transaction.header.participant == header.participant
  }

  /** The held block and its author's signature, which came with it. */
  function HeldSigned(r: Replica, block: Block): SignedBlock
    requires Conflicts(r, block)
  {
    var held := r.forks[block.transaction.header.forkCnt].agreements[block.transaction.header.transactionCnt];
    SignedBlock(held.block, if held.signatures == [] then 0 else held.signatures[0])
  }

  lemma ConflictIsFound(c: Client, machine: Bytes, steps: seq<Step>, signed: SignedBlock)
    requires c.OwnsSigner()
    ensures var r := Run(c, machine, steps).replica;
            DoubleSignedBlock(c.env, r, signed) ==
            if Conflicts(r, signed.block) then Some(HeldSigned(r, signed.block)) else None
  {
    var r := Run(c, machine, steps).replica;
    if Conflicts(r, signed.block) {
      RecordedIsAuthenticated(c, machine, steps, signed.block.Fork(), signed.block.Height());
      var a := r.AgreementAt(signed.block.Fork(), signed.block.Height());
      assert Authenticated(c, signed.block.Fork(), signed.block.Height(), a);
      assert ParticipantSignature(c.env, a.block, a.signatures, a.block.Author()) == Some(a.signatures[0]);
    }
  }

  /** Double-sign evidence made on a run has exactly the pairs of a given block and the block by its author that the
      client holds in its place. */
  lemma {:induction false} DoubleSignPairsAre(c: Client, machine: Bytes, steps: seq<Step>,
                                              conflicting: seq<SignedBlock>,
                                              pair: (SignedBlock, SignedBlock))
    requires c.OwnsSigner()
    ensures var r := Run(c, machine, steps).replica;
            pair in DoubleSignPairs(c.env, r, conflicting) <==>
            pair.0 in conflicting && Conflicts(r, pair.0.block) && pair.1 == HeldSigned(r, pair.0.block)
  {
    if conflicting != [] {
      DoubleSignPairsAre(c, machine, steps, conflicting[1..], pair);
      ConflictIsFound(c, machine, steps, conflicting[0]);
      assert conflicting == [conflicting[0]] + conflicting[1..];
    }
  }

  /** Whatever the client flags as a double sign, it can prove: on any run, even after a derailed machine,
      the evidence it builds is the one pair that convicts the author. */
  lemma DoubleSignIsUsable(c: Client, machine: Bytes, steps: seq<Step>, signed: SignedBlock)
    requires c.OwnsSigner() && signed.block.ChannelOf() == c.channelId
    requires Check(c.env, Run(c, machine, steps).replica, signed) == Some(AgreementFlag.DoubleSign)
    ensures var r := Run(c, machine, steps).replica;
            var existing := DoubleSignedBlock(c.env, r, signed);
            && existing.Some? && existing.value.block != signed.block
            && CreateDoubleSignProof(c.env, r, [signed]) == Proof.DoubleSign([(signed, existing.value)])
            && (c.env.blockHash(signed.block) != c.env.blockHash(existing.value.block) ==>
                  Convicts(c.env, c.channelId, signed.block.Fork(), signed, existing.value, signed.block.Author()))
  {
    RecordedIsAuthenticated(c, machine, steps, signed.block.Fork(), signed.block.Height());
    var r := Run(c, machine, steps).replica;
    ExistingConvicts(c, r, signed);
    OnePair(c.env, r, signed);
  }

  /** ProofManager.isDoubleSignValid. */
  predicate IsDoubleSignValid(pairs: seq<(SignedBlock, SignedBlock)>, d: Dispute) {
    exists pair <- pairs :: pair.0.block.Author() !in d.slashed
  }

  /** The client's filter keeps the evidence exactly for the disputes in which it will count as a success. */
  lemma DoubleSignFilterIsExact(c: Client, machine: Bytes, steps: seq<Step>, signed: SignedBlock, d: Dispute)
    requires c.OwnsSigner() && signed.block.ChannelOf() == c.channelId
    requires Check(c.env, Run(c, machine, steps).replica, signed) == Some(AgreementFlag.DoubleSign)
    requires d.channelId == c.channelId && d.forkCnt == signed.block.Fork()
    requires var existing := DoubleSignedBlock(c.env, Run(c, machine, steps).replica, signed);
             existing.Some? ==> c.env.blockHash(signed.block) != c.env.blockHash(existing.value.block)
    ensures var pairs := DoubleSignPairs(c.env, Run(c, machine, steps).replica, [signed]);
            var applied := ApplyDoubleSign(c.env, d, pairs);
            && applied.Ok?
            && (applied.value.success <==> IsDoubleSignValid(pairs, d))
  {
    DoubleSignIsUsable(c, machine, steps, signed);
    var pair := (signed, DoubleSignedBlock(c.env, Run(c, machine, steps).replica, signed).value);
    var applied := ApplyDoubleSign(c.env, d, [pair]);
    assert applied.value.success <==> signed.block.Author() !in d.slashed;
    assert pair in [pair];
  }

  // ---------- fold rechallenge ----------

  /** ProofManager.createFoldRechallengeProof. */
  function CreateFoldRechallengeProof(env: Env, r: Replica, fork: nat, height: nat): Option<Proof> {
    if r.Known(fork, height) && DidEveryoneSign(env, r, r.AgreementAt(fork, height).block)
    then Some(Proof.FoldRechallenge(r.AgreementAt(fork, height).block, r.AgreementAt(fork, height).signatures))
    else None
  }

  lemma {:induction false} RecoveredMembers(env: Env, block: Block, signatures: seq<Signature>, a: Address)
    requires Recoverable(env, env.blockHash(block), signatures)
    ensures |Recovered(env, env.blockHash(block), signatures)| == |signatures|
    ensures a in Recovered(env, env.blockHash(block), signatures) <==> env.Signs(block, signatures, a)
  {
    if signatures != [] {
      var last := |signatures| - 1;
      RecoveredMembers(env, block, signatures[..last], a);
      assert signatures == signatures[..last] + [signatures[last]];
      assert env.Signs(block, signatures, a) <==>
             env.Signs(block, signatures[..last], a) || env.Signer(block, signatures[last]) == Some(a) by {
        assert forall s <- signatures[..last] :: s in signatures;
        assert signatures[last] in signatures;
      }
    }
  }

  /** A list without repeats is contained, as a multiset, in any list that has all its members. */
  lemma {:induction false} DistinctContained(required: seq<Address>, present: seq<Address>)
    requires Distinct(required) && forall a <- required :: a in present
    ensures multiset(required) <= multiset(present) && |required| <= |present|
  {
    DistinctCardinality(required);
    SetOfBound(present);
    SubsetCardinality(SetOf(required), SetOf(present));
    forall a ensures multiset(required)[a] <= multiset(present)[a] {
      DistinctCount(required, a);
      if a in required { assert a in multiset(present); }
    }
  }

  lemma {:induction false} DistinctCount(s: seq<Address>, a: Address)
    requires Distinct(s)
    ensures multiset(s)[a] == if a in s then 1 else 0
  {
    if s != [] {
      var last := |s| - 1;
      DistinctCount(s[..last], a);
      assert s == s[..last] + [s[last]];
      assert s[last] !in s[..last];
    }
  }

  /** The client's question whether everyone signed and the contract's threshold check are the same question,
      when nobody stands twice in the threshold. */
  lemma EveryoneIsThreshold(env: Env, block: Block, signatures: seq<Signature>, threshold: seq<Address>)
    requires env.AllRecover(block, signatures) && Distinct(threshold)
    ensures ThresholdSigned(env, threshold, env.blockHash(block), signatures)
         == Ok(forall a <- threshold :: env.Signs(block, signatures, a))
  {
    forall i | 0 <= i < |signatures| ensures env.recover(env.blockHash(block), signatures[i]).Some? {
      assert signatures[i] in signatures && env.Signer(block, signatures[i]).Some?;
    }
    var present := Recovered(env, env.blockHash(block), signatures);
    forall a ensures a in present <==> env.Signs(block, signatures, a) { RecoveredMembers(env, block, signatures, a); }
    RecoveredMembers(env, block, signatures, 0);
    if forall a <- threshold :: env.Signs(block, signatures, a) {
      DistinctContained(threshold, present);
    } else {
      var a :| a in threshold && !env.Signs(block, signatures, a);
      assert a in multiset(threshold) && a !in multiset(present);
    }
  }

  /** Made on any run, the evidence that everyone signed the block of a claimed timeout is accepted: it undoes the
      timeout, and slashes whoever claimed it unless that was done already. */
  lemma FoldRechallengeIsUsable(c: Client, machine: Bytes, steps: seq<Step>, fork: nat, height: nat, d: Dispute)
    requires c.OwnsSigner() && d.channelId == c.channelId && d.forkCnt == fork && d.foldedTransactionCnt == height
    requires CreateFoldRechallengeProof(c.env, Run(c, machine, steps).replica, fork, height).Some?
    requires d.participants == Run(c, machine, steps).replica.forks[fork].threshold && Distinct(d.participants)
    ensures var proof := CreateFoldRechallengeProof(c.env, Run(c, machine, steps).replica, fork, height).value;
            ApplyFoldRechallenge(c.env, d, proof.block, proof.signatures)
            == Ok(Slash(d.(timedout := ZERO_ADDRESS), d.timeoutDisputer))
  {
    RecordedIsAuthenticated(c, machine, steps, fork, height);
    var a := Run(c, machine, steps).replica.AgreementAt(fork, height);
    EveryoneIsThreshold(c.env, a.block, a.signatures, d.participants);
  }

  // ---------- newer state ----------

  /** AgreementManager.getLatestSignedBlockByParticipant. */
  function LatestSignedBlock(env: Env, agreements: seq<Agreement>, p: Address): Option<SignedBlock> {
    var m := C.LatestSigned(env, agreements, p, |agreements|);
    if m < 0 then None
    else
      var signature := ParticipantSignature(env, agreements[m].block, agreements[m].signatures, p);
      Some(SignedBlock(agreements[m].block, signature.value))
  }

  /** It is the highest agreement that the participant signed, with its first signature there. */
  predicate IsLatestSigned(env: Env, agreements: seq<Agreement>, p: Address, signed: SignedBlock, i: nat, k: nat)
    requires i < |agreements| && k < |agreements[i].signatures|
  {
    && signed == SignedBlock(agreements[i].block, agreements[i].signatures[k])
    && env.Signer(signed.block, signed.signature) == Some(p)
    && (forall j :: 0 <= j < k ==> env.Signer(signed.block, agreements[i].signatures[j]) != Some(p))
    && forall j, s :: i < j < |agreements| && s in agreements[j].signatures ==>
         env.Signer(agreements[j].block, s) != Some(p)
  }

  lemma {:induction false} FirstSignature(env: Env, block: Block, signatures: seq<Signature>, p: Address)
    returns (k: nat)
    requires ParticipantSignature(env, block, signatures, p).Some?
    ensures k < |signatures| && ParticipantSignature(env, block, signatures, p) == Some(signatures[k])
    ensures env.Signer(block, signatures[k]) == Some(p)
    ensures forall j :: 0 <= j < k ==> env.Signer(block, signatures[j]) != Some(p)
  {
    k := 0;
    if env.Signer(block, signatures[0]) != Some(p) {
      k := FirstSignature(env, block, signatures[1..], p);
      k := k + 1;
    }
  }

  lemma LatestSignedBlockIs(env: Env, agreements: seq<Agreement>, p: Address)
    ensures match LatestSignedBlock(env, agreements, p)
            case None => forall j, s :: 0 <= j < |agreements| && s in agreements[j].signatures ==>
                           env.Signer(agreements[j].block, s) != Some(p)
            case Some(signed) =>
              exists i, k :: 0 <= i < |agreements| && 0 <= k < |agreements[i].signatures|
                             && IsLatestSigned(env, agreements, p, signed, i, k)
  {
    var m := C.LatestSigned(env, agreements, p, |agreements|);
    forall j, s | m < j < |agreements| && s in agreements[j].signatures
      ensures env.Signer(agreements[j].block, s) != Some(p)
    {
      assert !C.SignedBy(env, agreements[j], p);
    }
    if m >= 0 {
      assert C.SignedBy(env, agreements[m], p);
      var k := FirstSignature(env, agreements[m].block, agreements[m].signatures, p);
      assert IsLatestSigned(env, agreements, p, LatestSignedBlock(env, agreements, p).value, m, k);
    }
  }

  function CreateNewerStateProof(env: Env, r: Replica, fork: nat, p: Address, current: nat): Option<Proof> {
    if fork >= |r.forks| then None
    else match LatestSignedBlock(env, r.forks[fork].agreements, p)
      case None => None
      case Some(signed) =>
        if current >= signed.block.Height() then None else Some(Proof.NewerState(signed.block, signed.signature))
  }

  predicate IsNewerStateValid(proof: Proof, d: Dispute)
    requires proof.NewerState?
  {
    && d.votes != []
    && proof.newer.Author() !in d.slashed
    && proof.newer.Author() == d.postedStateDisputer
    && proof.newer.Height() > d.votes[|d.votes| - 1].block.Height()
  }

  /** On any run there is newer-state evidence against `p` exactly when `p` signed a recorded block above the
      given height. */
  lemma NewerStateExists(c: Client, machine: Bytes, steps: seq<Step>, fork: nat, p: Address, current: nat)
    requires c.OwnsSigner() && fork < |Run(c, machine, steps).replica.forks|
    ensures var agreements := Run(c, machine, steps).replica.forks[fork].agreements;
            CreateNewerStateProof(c.env, Run(c, machine, steps).replica, fork, p, current).Some? <==>
            exists i :: current < i < |agreements| && c.env.Signs(agreements[i].block, agreements[i].signatures, p)
  {
    var t := Run(c, machine, steps);
    var f := t.replica.forks[fork];
    RunKeeps(c, machine, steps);
    assert ForkSound(c, f, fork, t.Sound(fork));
    var m := C.LatestSigned(c.env, f.agreements, p, |f.agreements|);
    if m >= 0 { assert Authenticated(c, fork, m, f.agreements[m]); }
    forall i | current < i < |f.agreements| && c.env.Signs(f.agreements[i].block, f.agreements[i].signatures, p)
      ensures i <= m
    {
      assert C.SignedBy(c.env, f.agreements[i], p);
    }
  }

  /** Evidence made on a run for `p`: it has the signature of `p` on a recorded block. */
  lemma NewerStateIsSigned(c: Client, machine: Bytes, steps: seq<Step>, fork: nat, p: Address, current: nat)
    requires c.OwnsSigner()
    requires CreateNewerStateProof(c.env, Run(c, machine, steps).replica, fork, p, current).Some?
    ensures var proof := CreateNewerStateProof(c.env, Run(c, machine, steps).replica, fork, p, current).value;
            && proof.newer.ChannelOf() == c.channelId && proof.newer.Fork() == fork
            && c.env.Signer(proof.newer, proof.confirmation) == Some(p)
  {
    var t := Run(c, machine, steps);
    RunKeeps(c, machine, steps);
    var f := t.replica.forks[fork];
    var m := C.LatestSigned(c.env, f.agreements, p, |f.agreements|);
    assert ForkSound(c, f, fork, t.Sound(fork));
    assert Authenticated(c, fork, m, f.agreements[m]);
  }

  /** The contract takes the evidence and slashes someone new. */
  predicate NewerStateSlashes(env: Env, proof: Proof, d: Dispute)
    requires proof.NewerState?
  {
    ApplyNewerState(env, d, proof.newer, proof.confirmation)
    == Ok(Applied(d.(slashed := d.slashed + [d.postedStateDisputer]), true))
  }

  /** Evidence made on any run for participant `p` slashes in a dispute exactly when `p` posted its state, was not
      slashed yet, and signed at or above the last vote; otherwise it reverts, or `p` was slashed before. */
  lemma NewerStateVerdict(c: Client, machine: Bytes, steps: seq<Step>, fork: nat, p: Address, current: nat, d: Dispute)
    requires c.OwnsSigner() && d.channelId == c.channelId && d.forkCnt == fork
    requires CreateNewerStateProof(c.env, Run(c, machine, steps).replica, fork, p, current).Some?
    ensures var proof := CreateNewerStateProof(c.env, Run(c, machine, steps).replica, fork, p, current).value;
            var accepted := p == d.postedStateDisputer && d.votes != []
                            && proof.newer.Height() >= d.votes[|d.votes| - 1].block.Height();
            && (NewerStateSlashes(c.env, proof, d) <==> accepted && p !in d.slashed)
            && (ApplyNewerState(c.env, d, proof.newer, proof.confirmation) == Revert <==> !accepted)
  {
    NewerStateIsSigned(c, machine, steps, fork, p, current);
  }

  /** What the client's filter does to that evidence. Of what would slash it drops exactly the blocks by another
      author than `p`, which `p` only confirmed, and the blocks at the height of the last vote. Of what it keeps,
      exactly the evidence made for the poster slashes; all other reverts. */
  lemma NewerStateFilterIsExact(c: Client, machine: Bytes, steps: seq<Step>, fork: nat, p: Address, current: nat,
                                d: Dispute)
    requires c.OwnsSigner() && d.channelId == c.channelId && d.forkCnt == fork
    requires CreateNewerStateProof(c.env, Run(c, machine, steps).replica, fork, p, current).Some?
    ensures var proof := CreateNewerStateProof(c.env, Run(c, machine, steps).replica, fork, p, current).value;
            && (NewerStateSlashes(c.env, proof, d) ==>
                  (IsNewerStateValid(proof, d) <==>
                     proof.newer.Author() == p && proof.newer.Height() != d.votes[|d.votes| - 1].block.Height()))
            && (IsNewerStateValid(proof, d) ==>
                  if p == d.postedStateDisputer then NewerStateSlashes(c.env, proof, d)
                  else ApplyNewerState(c.env, d, proof.newer, proof.confirmation) == Revert)
  {
    NewerStateVerdict(c, machine, steps, fork, p, current, d);
  }
}
