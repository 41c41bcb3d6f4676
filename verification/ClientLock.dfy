/** The mutex of the client. onSignedBlock gives it back only after the decision handler, so a handler that throws keeps
    it for ever. */
module ClientLock {
  import opened Types
  import opened ReplicaRules
  import opened ReplicaRuns

  // ---------- one step ----------

  /** The decision handler throws: the client's own confirmation can not be added, or a dispute comes without a flag. A
      dispute handler is not awaited, so what it throws does not matter here. */
  predicate HandlerThrows(c: Client, validated: Result, block: Block) {
    match validated.verdict
    case Success => ConfirmBlock(validated.replica, block, c.MySignature(block)).None?
    case Thrown => ConfirmBlock(validated.replica, block, c.MySignature(block)).None?
    case Disputed(None) => true
    case _ => false
  }

  /** onSignedBlock throws with the mutex in its hands. */
  predicate Keeps(c: Client, r: Replica, signed: SignedBlock, clock: nat, chainTime: nat) {
    HandlerThrows(c, ValidateSignedBlock(c, r, signed, clock, chainTime), signed.block)
  }

  /** A block nobody has seen yet, at the next height of the latest, undisputed fork, by one of its participants. */
  predicate IsNext(c: Client, r: Replica, signed: SignedBlock) {
    var block := signed.block;
    && Authentic(c, signed) == Some(true)
    && r.forks != [] && block.Fork() == r.LatestFork() && block.Fork() !in r.disputed
    && block.Height() == r.NextHeight() && !r.Queued(block)
    && r.InLatestFork(block.Author())
  }

  /** Exactly these messages keep the mutex: a block whose signature can not be read, unless the client holds the block
      without its own signature on it; and a next block that is older than its predecessor, or more than ten seconds
      ahead of the client's clock when it is the client's turn, or good and signed with the client's own signature. */
  lemma WhatKeeps(c: Client, r: Replica, signed: SignedBlock, clock: nat, chainTime: nat)
    ensures var block, v := signed.block, ValidateSignedBlock(c, r, signed, clock, chainTime);
            Keeps(c, r, signed, clock, chainTime) <==>
            || (Authentic(c, signed) == None && ConfirmBlock(r, block, c.MySignature(block)).None?)
            || (IsNext(c, r, signed) &&
                var f := r.forks[r.LatestFork()];
                || block.Timestamp() < f.LatestBlockTimestamp()
                || (GoodTimestamp(c, f, block, chainTime) && c.env.nextToWrite(r.machine) == c.me
                    && block.Timestamp() > clock + TOLERANCE_FUTURE)
                || (v.verdict == Success && signed.signature == c.MySignature(block)))
  {
    var v := ValidateSignedBlock(c, r, signed, clock, chainTime);
    ValidateShape(c, r, signed, clock, chainTime);
    if v.verdict == Success { AddedAndConfirmed(c, r, signed, clock, chainTime); }
  }

  /** A good block is confirmed in the step that appends it, unless it carries the very signature already. */
  lemma AddedAndConfirmed(c: Client, r: Replica, signed: SignedBlock, clock: nat, chainTime: nat)
    requires ValidateSignedBlock(c, r, signed, clock, chainTime).verdict == Success
    ensures var v := ValidateSignedBlock(c, r, signed, clock, chainTime);
            ConfirmBlock(v.replica, signed.block, c.MySignature(signed.block)).None?
            <==> signed.signature == c.MySignature(signed.block)
  {
    var v, block := ValidateSignedBlock(c, r, signed, clock, chainTime), signed.block;
    ValidateShape(c, r, signed, clock, chainTime);
    assert v.replica.InChain(block)
           && v.replica.AgreementAt(block.Fork(), block.Height()).signatures == [signed.signature];
  }

  // ---------- whole runs ----------

  /** The steps that wait for the mutex: every signed block, every transaction of the client's own, and a confirmation
      that first has to bring its block into the chain. */
  predicate Waits(c: Client, r: Replica, step: Step) {
    match step
    case SignedBlockArrives(_, _, _) => true
    case Play(_, _) => true
    case ConfirmationArrives(signed, _, _, _) =>
      Authentic(c, signed) == Some(true) && signed.block.Fork() >= r.LatestFork() && !r.InChain(signed.block)
    case _ => false
  }

  predicate StepKeeps(c: Client, r: Replica, step: Step) {
    match step
    case SignedBlockArrives(signed, clock, chainTime) => Keeps(c, r, signed, clock, chainTime)
    case ConfirmationArrives(signed, _, clock, chainTime) => Waits(c, r, step) && Keeps(c, r, signed, clock, chainTime)
    case _ => false
  }

  /** The steps that are taken at all, and whether the mutex is kept at the end of them. */
  datatype Taken = Taken(steps: seq<Step>, stuck: bool)

  function Take(c: Client, machine: Bytes, before: Taken, step: Step): Taken {
    var r := Run(c, machine, before.steps).replica;
    if before.stuck && Waits(c, r, step) then before
    else Taken(before.steps + [step], before.stuck || StepKeeps(c, r, step))
  }

  /** What is left of a run when the mutex is reckoned with. */
  function TakenOf(c: Client, machine: Bytes, steps: seq<Step>): Taken {
    if steps == [] then Taken([], false)
    else Take(c, machine, TakenOf(c, machine, steps[..|steps| - 1]), steps[|steps| - 1])
  }

  /** The client with its mutex. */
  function LockedRun(c: Client, machine: Bytes, steps: seq<Step>): Tracked {
    Run(c, machine, TakenOf(c, machine, steps).steps)
  }

  lemma FreeStep(c: Client, machine: Bytes, before: Taken, step: Step)
    requires !Take(c, machine, before, step).stuck
    ensures !before.stuck && Take(c, machine, before, step).steps == before.steps + [step]
  {}

  /** As long as no handler throws, every step is taken: the run is the run without a mutex. */
  lemma {:induction false} FreeRun(c: Client, machine: Bytes, steps: seq<Step>)
    requires !TakenOf(c, machine, steps).stuck
    ensures LockedRun(c, machine, steps) == Run(c, machine, steps)
    ensures TakenOf(c, machine, steps).steps == steps
  {
    if steps != [] {
      var front, last := steps[..|steps| - 1], steps[|steps| - 1];
      FreeStep(c, machine, TakenOf(c, machine, front), last);
      FreeRun(c, machine, front);
      assert steps == front + [last];
    }
  }

  /** The step of the ordinary run leaves the mutex locked: a signed block whose handler throws, whether it arrives
      alone or has to be brought into the chain for a confirmation of it. */
  predicate LeavesLocked(c: Client, r: Replica, step: Step) {
    || (step.SignedBlockArrives? && Keeps(c, r, step.signed, step.clock, step.chainTime))
    || (step.ConfirmationArrives? && Authentic(c, step.original) == Some(true)
        && step.original.block.Fork() + 1 >= |r.forks| && !r.InChain(step.original.block)
        && Keeps(c, r, step.original, step.clock, step.chainTime))
  }

  /** Some step of the ordinary run does. */
  predicate SomeLocks(c: Client, machine: Bytes, steps: seq<Step>) {
    steps != [] &&
    (SomeLocks(c, machine, steps[..|steps| - 1])
     || LeavesLocked(c, Run(c, machine, steps[..|steps| - 1]).replica, steps[|steps| - 1]))
  }

  lemma KeepsIsLocks(c: Client, r: Replica, step: Step)
    ensures StepKeeps(c, r, step) <==> LeavesLocked(c, r, step)
  {}

  /** The mutex is left locked exactly when some step of the ordinary run leaves it locked. */
  lemma {:induction false} LockedWhen(c: Client, machine: Bytes, steps: seq<Step>)
    ensures TakenOf(c, machine, steps).stuck <==> SomeLocks(c, machine, steps)
  {
    if steps != [] {
      var front := steps[..|steps| - 1];
      LockedWhen(c, machine, front);
      if !TakenOf(c, machine, front).stuck {
        FreeRun(c, machine, front);
        KeepsIsLocks(c, Run(c, machine, front).replica, steps[|steps| - 1]);
      }
    }
  }

  /** With the mutex locked, signed blocks, the client's own transactions and confirmations of blocks that are not in
      the chain wait; every other step is still taken. */
  lemma LockedStep(c: Client, machine: Bytes, steps: seq<Step>)
    requires steps != [] && TakenOf(c, machine, steps[..|steps| - 1]).stuck
    ensures var before, step := TakenOf(c, machine, steps[..|steps| - 1]).steps, steps[|steps| - 1];
            var r := Run(c, machine, before).replica;
            TakenOf(c, machine, steps).steps ==
            if step.SignedBlockArrives? || step.Play?
               || (step.ConfirmationArrives? && Authentic(c, step.original) == Some(true)
                   && step.original.block.Fork() + 1 >= |r.forks| && !r.InChain(step.original.block))
            then before else before + [step]
  {}

  /** The number of blocks of a fork; 0 when it is not known. */
  function Blocks(r: Replica, fork: nat): nat {
    if fork < |r.forks| then |r.forks[fork].agreements| else 0
  }

  lemma OnlyWaitersAppend(c: Client, r: Replica, step: Step, fork: nat)
    requires !Waits(c, r, step)
    ensures Blocks(Next(c, r, step), fork) == Blocks(r, fork)
  {
    match step
    case CalldataPosted(posted, timestamp) => CollectShape(c, r, posted, timestamp);
    case ConfirmationArrives(signed, confirmation, clock, chainTime) =>
      ConfirmationShape(c, r, signed, confirmation, clock, chainTime);
    case _ =>
  }

  /** Once the mutex is kept, no fork ever gets another block, whatever arrives and however many forks are set. */
  lemma {:induction false} StuckForever(c: Client, machine: Bytes, steps: seq<Step>, n: nat, fork: nat)
    requires n <= |steps| && TakenOf(c, machine, steps[..n]).stuck
    ensures TakenOf(c, machine, steps).stuck
    ensures Blocks(LockedRun(c, machine, steps).replica, fork)
            == Blocks(LockedRun(c, machine, steps[..n]).replica, fork)
  {
    if n == |steps| {
      assert steps[..n] == steps;
    } else {
      var front, step := steps[..|steps| - 1], steps[|steps| - 1];
      assert front[..n] == steps[..n];
      StuckForever(c, machine, front, n, fork);
      var before := TakenOf(c, machine, front);
      var r := Run(c, machine, before.steps).replica;
      if !Waits(c, r, step) {
        OnlyWaitersAppend(c, r, step, fork);
        assert (before.steps + [step])[..|before.steps|] == before.steps;
      }
    }
  }
}
