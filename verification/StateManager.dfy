/** The client's steps as src/stateManager/StateManager.ts and ValidationService.ts take them, over stores that are
    changed in place. Each method is proved against the rule of the same step, and `Perform` against one step of
    a run. A step holds the mutex from beginning to end; what the contract answers and the clock are parameters. */
module StateManager {
  import opened Types
  import opened StateMachine
  import opened ReplicaRules
  import opened AgreementManager
  import R = ReplicaRuns
  import T = Timeouts

  class Manager {
    const client: Client
    const machine: Machine
    const forkService: ForkService
    const queueService: QueueService
    const chainTracker: OnChainTracker
    var disputedForks: set<nat>

    ghost predicate Valid()
      reads this, queueService
    {
      && machine.env == client.env
      && chainTracker.forkService == forkService && chainTracker.queueService == queueService
      && queueService.Valid()
    }

    ghost function View(): Replica
      reads this, machine, forkService, queueService
    {
      Replica(forkService.forks, queueService.flat, disputedForks, machine.state)
    }

    /** The forks alone, for the questions that only they decide. */
    function Forks(): Replica
      reads forkService
    {
      OnlyForks(forkService.forks)
    }

    constructor (client: Client, machine: Machine)
      requires machine.env == client.env
      ensures Valid() && this.client == client && this.machine == machine
      ensures fresh(forkService) && fresh(queueService)
      ensures View() == Replica([], map[], {}, machine.state)
    {
      this.client, this.machine := client, machine;
      var forks := new ForkService();
      var queues := new QueueService();
      forkService, queueService, disputedForks := forks, queues, {};
      chainTracker := new OnChainTracker(forks, queues);
    }

    // ---------- BlockValidator ----------

    /** BlockValidator.ts:27-30. */
    method IsBlockDuplicate(block: Block) returns (duplicate: bool)
      requires Valid()
      ensures duplicate == (View().InChain(block) || View().Queued(block))
    {
      if Forks().InChain(block) { return true; }
      duplicate := queueService.IsBlockQueued(block);
    }

    /** BlockValidator.ts:49-92. */
    method CheckBlock(signed: SignedBlock) returns (flag: Option<AgreementFlag>)
      requires Valid()
      ensures flag == Check(client.env, View(), signed)
    {
      var block := signed.block;
      var fork, height := block.Fork(), block.Height();
      var signer := client.env.Signer(block, signed.signature);
      if signer.None? { return None; }
      if signer.value != block.Author() { return Some(InvalidSignature); }
      var isDuplicate := IsBlockDuplicate(block);
      if isDuplicate { return Some(DuplicateBlock); }
      if fork >= |forkService.forks| { return Some(NotReadyYet); }
      var f := forkService.forks[fork];
      if height < |f.agreements| {
        return Some(if f.agreements[height].block.Author() == block.Author() then DoubleSign else IncorrectData);
      }
      if height == 0 {
        return Some(if block.previousStateHash == client.env.keccak(f.genesis) then Ready else IncorrectData);
      }
      if height - 1 >= |f.agreements| { return Some(NotReadyYet); }
      return Some(if f.agreements[height - 1].block.stateHash == block.previousStateHash then Ready else IncorrectData);
    }

    // ---------- ValidationService ----------

    /** ValidationService.ts:213-244; None when the block is older than its predecessor and the call throws. */
    method IsGoodTimestamp(block: Block, chainTime: nat) returns (r: Option<bool>)
      requires Valid() && block.Fork() < |forkService.forks|
      ensures var f := View().forks[block.Fork()];
              r == if block.Timestamp() < f.LatestBlockTimestamp() then None
                   else Some(GoodTimestamp(client, f, block, chainTime))
    {
      var latest := forkService.forks[block.Fork()].LatestBlockTimestamp();
      var posted := chainTracker.LatestTimestamp(block.Fork(), block.Height());
      var initialReference := if posted.value > latest then posted.value else latest;
      if block.Timestamp() < latest { return None; }
      if block.Timestamp() > initialReference + client.times.p2p {
        var updatedReference := if chainTime > initialReference then chainTime else initialReference;
        if block.Timestamp() > updatedReference + client.times.p2p { return Some(false); }
      }
      return Some(true);
    }

    /** ValidationService.ts:164-190. */
    method ProcessStateTransition(signed: SignedBlock) returns (verdict: Verdict)
      requires Valid()
      modifies machine, forkService
      ensures Valid()
      ensures Result(View(), verdict) == ReplicaRules.ProcessStateTransition(client, old(View()), signed)
    {
      var block := signed.block;
      var previousStateHash := client.env.keccak(machine.state);
      var txOK := machine.StateTransition(block.transaction);
      var encodedState := machine.state;
      var stateHash := client.env.keccak(encodedState);
      if !txOK || stateHash != block.stateHash || previousStateHash != block.previousStateHash {
        return Disputed(Some(IncorrectData));
      }
      var added := forkService.AddBlock(block, signed.signature, encodedState);
      return if added then Success else Thrown;
    }

    /** ValidationService.ts:80-94: a block below the next height of the latest fork. */
    method JudgePastBlock(signed: SignedBlock) returns (verdict: Verdict)
      requires Valid()
      ensures verdict == match Check(client.env, View(), signed)
                         case Some(DoubleSign) => Disputed(Some(DoubleSign))
                         case Some(IncorrectData) => Disputed(Some(IncorrectData))
                         case _ => Thrown
    {
      var flag := CheckBlock(signed);
      if flag == Some(DoubleSign) || flag == Some(IncorrectData) { return Disputed(flag); }
      return Thrown;
    }

    /** ValidationService.ts:96-112: a block at the next height of the latest fork. */
    method JudgeNextBlock(signed: SignedBlock, clock: nat, chainTime: nat) returns (verdict: Verdict)
      requires Valid() && forkService.forks != [] && signed.block.Fork() == View().LatestFork()
      modifies this, machine, forkService
      ensures Valid()
      ensures Result(View(), verdict) == NextBlockVerdict(client, old(View()), signed, clock, chainTime)
    {
      var block := signed.block;
      var good := IsGoodTimestamp(block, chainTime);
      if good.None? { return Thrown; }
      if !good.value { return Disputed(Some(IncorrectData)); }
      var nextToWrite := client.env.nextToWrite(machine.state);
      if nextToWrite == client.me {
        var age := clock - block.Timestamp();
        if age > TOLERANCE_PAST { return NotEnoughTime; }
        if age < -TOLERANCE_FUTURE {
          disputedForks := disputedForks + {Forks().LatestFork()};
          return Disputed(None);
        }
      }
      if block.Author() != nextToWrite { return Disputed(Some(IncorrectData)); }
      verdict := ProcessStateTransition(signed);
    }

    /** ValidationService.ts:43-113. */
    method ValidateSignedBlock(signed: SignedBlock, clock: nat, chainTime: nat) returns (verdict: Verdict)
      requires Valid()
      modifies this, machine, forkService
      ensures Valid()
      ensures Result(View(), verdict) == ReplicaRules.ValidateSignedBlock(client, old(View()), signed, clock, chainTime)
    {
      var block := signed.block;
      var authentic := Authentic(client, signed);
      if authentic.None? { return Thrown; }
      if !authentic.value { return Disconnect; }
      if block.Fork() < Forks().LatestFork() || block.Fork() in disputedForks { return PastFork; }
      var isDuplicate := IsBlockDuplicate(block);
      if isDuplicate { return Duplicate; }
      if block.Fork() > Forks().LatestFork() || block.Height() > Forks().NextHeight() { return NotReady; }
      if !Forks().InLatestFork(block.Author()) { return Disconnect; }
      if block.Height() < Forks().NextHeight() {
        verdict := JudgePastBlock(signed);
      } else {
        verdict := JudgeNextBlock(signed, clock, chainTime);
      }
    }

    // ---------- StateManager ----------

    /** The client's own confirmation of a block. */
    method ConfirmOwn(block: Block, otherwise: Verdict) returns (verdict: Verdict)
      requires Valid()
      modifies forkService
      ensures Valid()
      ensures Result(View(), verdict) == match ConfirmBlock(old(View()), block, client.MySignature(block))
                                         case None => Result(old(View()), Thrown)
                                         case Some(confirmed) => Result(confirmed, otherwise)
    {
      var confirmed := forkService.Confirm(block, client.MySignature(block));
      return if confirmed then otherwise else Thrown;
    }

    /** StateManager.ts:517-536 and processExecutionDecisionHandlers.ts. */
    method ProcessExecutionDecision(signed: SignedBlock, verdict: Verdict) returns (final: Verdict)
      requires Valid()
      modifies this, forkService, queueService
      ensures Valid()
      ensures Result(View(), final) == Decide(client, old(View()), signed, verdict)
    {
      var block := signed.block;
      match verdict
      case Success => final := ConfirmOwn(block, Success);
      case Thrown => final := ConfirmOwn(block, Thrown);
      case NotReady =>
        queueService.QueueBlock(signed);
        final := NotReady;
      case Disputed(flag) =>
        if flag == None { return Thrown; }
        if flag == Some(DoubleSign) || CanProveIncorrectData(client.env, Forks(), block) {
          disputedForks := disputedForks + {block.Fork()};
        }
        final := verdict;
      case _ => final := verdict;
    }

    /** StateManager.ts:230-267. */
    method OnSignedBlock(signed: SignedBlock, clock: nat, chainTime: nat) returns (verdict: Verdict)
      requires Valid()
      modifies this, machine, forkService, queueService
      ensures Valid()
      ensures Result(View(), verdict) == ReplicaRules.OnSignedBlock(client, old(View()), signed, clock, chainTime)
    {
      var validated := ValidateSignedBlock(signed, clock, chainTime);
      verdict := ProcessExecutionDecision(signed, validated);
    }

    /** ValidationService.ts:142-159 and StateManager.ts:288-293. */
    method ConfirmFrom(block: Block, confirmation: Signature) returns (verdict: Verdict)
      requires Valid()
      modifies forkService
      ensures Valid()
      ensures Result(View(), verdict) == Confirm(client, old(View()), block, confirmation)
    {
      var confirmer := client.env.Signer(block, confirmation);
      if confirmer.None? { return Thrown; }
      if !Forks().InLatestFork(confirmer.value) { return Disconnect; }
      var confirmed := forkService.Confirm(block, confirmation);
      if confirmed { return Success; }
      return if Forks().InChain(block) then Duplicate else Thrown;
    }

    /** ValidationService.ts:115-160 and StateManager.ts:288-293. */
    method JudgeConfirmation(signed: SignedBlock, confirmation: Signature, clock: nat, chainTime: nat)
      returns (verdict: Verdict)
      requires Valid()
      modifies this, machine, forkService, queueService
      ensures Valid()
      ensures Result(View(), verdict)
              == ConfirmationVerdict(client, old(View()), signed, confirmation, clock, chainTime)
    {
      var block := signed.block;
      var authentic := Authentic(client, signed);
      if authentic.None? { return Thrown; }
      if !authentic.value { return Disconnect; }
      if block.Fork() < Forks().LatestFork() { return PastFork; }
      if !Forks().InChain(block) {
        verdict := OnSignedBlock(signed, clock, chainTime);
        if verdict == Duplicate {
          if !Forks().InChain(block) { return NotReady; }
        } else if verdict != Success {
          return;
        }
      }
      verdict := ConfirmFrom(block, confirmation);
    }

    /** StateManager.ts:270-309. */
    method OnBlockConfirmation(signed: SignedBlock, confirmation: Signature, clock: nat, chainTime: nat)
      returns (verdict: Verdict)
      requires Valid()
      modifies this, machine, forkService, queueService
      ensures Valid()
      ensures Result(View(), verdict)
           == ReplicaRules.OnBlockConfirmation(client, old(View()), signed, confirmation, clock, chainTime)
    {
      verdict := JudgeConfirmation(signed, confirmation, clock, chainTime);
      if verdict == NotReady { verdict := Thrown; }
    }

    /** StateManager.ts:332-384, with the header that P2pSigner fills in. */
    method PlayTransaction(body: Bytes, clock: nat) returns (verdict: Verdict)
      requires Valid()
      modifies machine, forkService
      ensures Valid()
      ensures Result(View(), verdict) == ReplicaRules.PlayTransaction(client, old(View()), body, clock)
    {
      if client.env.nextToWrite(machine.state) != client.me || forkService.forks == [] { return Thrown; }
      var fork, height := Forks().LatestFork(), Forks().NextHeight();
      var latest, timestamp := forkService.forks[fork].LatestBlockTimestamp(), clock;
      if timestamp < latest { timestamp := latest + 1; }
      var tx := Transaction(Header(client.channelId, client.me, fork, height, timestamp), body);
      var previousStateHash := client.env.keccak(machine.state);
      var success := machine.StateTransition(tx);
      if !success { return Thrown; }
      var block := Block(tx, client.env.keccak(machine.state), previousStateHash);
      var added := forkService.AddBlock(block, client.MySignature(block), machine.state);
      return if added then Success else Thrown;
    }

    /** StateManager.ts:210-227. */
    method SetState(state: Bytes, forkCnt: nat, timestamp: nat)
      requires Valid()
      modifies machine, forkService
      ensures Valid()
      ensures View() == ReplicaRules.SetState(client, old(View()), state, forkCnt, timestamp)
    {
      machine.SetState(state);
      forkService.NewFork(state, client.env.participants(machine.state), forkCnt, timestamp);
    }

    /** StateManager.ts:131-169. */
    method CollectOnChainBlock(signed: SignedBlock, timestamp: nat) returns (ok: bool)
      requires Valid()
      modifies this, forkService, queueService
      ensures Valid()
      ensures View() == Collect(client, old(View()), signed, timestamp)
      ensures ok == !CollectThrows(client, old(View()), signed)
    {
      var flag := CheckBlock(signed);
      match flag
      case None => ok := false;
      case Some(InvalidSignature) => ok := true;
      case Some(DoubleSign) =>
        disputedForks := disputedForks + {signed.block.Fork()};
        ok := true;
      case Some(IncorrectData) =>
        ok := CanProveIncorrectData(client.env, Forks(), signed.block);
        if ok { disputedForks := disputedForks + {signed.block.Fork()}; }
      case Some(other) => ok := chainTracker.Collect(signed, other, timestamp);
    }

    /** AgreementManager.ts:154-177. */
    method DidEveryoneSignBlock(block: Block) returns (everyone: bool)
      requires Valid()
      ensures everyone == DidEveryoneSign(client.env, View(), block)
    {
      if !Forks().InChain(block) { return false; }
      var f := forkService.forks[block.Fork()];
      var signatures := f.agreements[block.Height()].signatures;
      for i := 0 to |f.threshold|
        invariant forall a <- f.threshold[..i] :: client.env.Signs(block, signatures, a)
      {
        if !client.env.Signs(block, signatures, f.threshold[i]) {
          assert f.threshold[i] in f.threshold;
          return false;
        }
      }
      assert f.threshold[..|f.threshold|] == f.threshold;
      return true;
    }

    /** StateManager.ts:416-483. */
    method TryTimeoutParticipant(fork: nat, height: nat, participant: Address, clock: nat, posted: bool)
      returns (d: T.TimeoutDecision)
      requires Valid()
      ensures d == T.TryTimeout(client, View(), fork, height, participant, clock, posted)
    {
      if participant == client.me || fork >= |forkService.forks| { return T.Skip; }
      var f := forkService.forks[fork];
      if height < |f.agreements| {
        var everyone := DidEveryoneSignBlock(f.agreements[height].block);
        if everyone { return T.Skip; }
      }
      if f.HasPosted(height, participant) { return T.Skip; }
      var latestPosted := chainTracker.LatestTimestamp(fork, height);
      if clock < latestPosted.value + client.times.TimeoutWait() || posted { return T.Skip; }
      var delay := client.times.TimeoutWait() - (clock - f.LatestBlockTimestamp());
      return if delay < 0 then T.Now else T.Later(delay);
    }

    /** One step of a run. */
    method Perform(step: R.Step)
      requires Valid()
      modifies this, machine, forkService, queueService
      ensures Valid()
      ensures View() == R.Next(client, old(View()), step)
    {
      match step
      case StateSet(state, forkCnt, timestamp) => SetState(state, forkCnt, timestamp);
      case SignedBlockArrives(signed, clock, chainTime) => var verdict := OnSignedBlock(signed, clock, chainTime);
      case ConfirmationArrives(signed, confirmation, clock, chainTime) =>
        var verdict := OnBlockConfirmation(signed, confirmation, clock, chainTime);
      case Play(body, clock) => var verdict := PlayTransaction(body, clock);
      case CalldataPosted(signed, timestamp) => var ok := CollectOnChainBlock(signed, timestamp);
      case TakeFromQueue(fork, height) => var blocks := queueService.TryDequeueBlocks(fork, height);
      case DisputeSeen(fork) => disputedForks := disputedForks + {fork};
    }
  }
}
