/** What each step of the client answers and what it leaves in the stores, for every input, in the fields of the stores
    and of the block: the steps of StateManager.ts and the checks behind them seen from outside. */
module ClientVerdicts {
  import opened Types
  import opened ReplicaRules
  import R = ReplicaRuns
  import J = JointRuns

  // ---------- common terms ----------

  /** This very block stands at its coordinates. */
  predicate Held(r: Replica, block: Block) {
    var header := block.transaction.header;
    && header.forkCnt < |r.forks| && header.transactionCnt < |r.forks[header.forkCnt].agreements|
    && r.forks[header.forkCnt].agreements[header.transactionCnt].block == block
  }

  /** This very block waits in the queue. */
  predicate Waiting(r: Replica, block: Block) {
    var key := (block.transaction.header.forkCnt, block.transaction.header.transactionCnt,
                block.transaction.header.participant);
    key in r.queue && r.queue[key].block == block
  }

  function SignerOf(c: Client, signed: SignedBlock): Option<Address> {
    c.env.recover(c.env.blockHash(signed.block), signed.signature)
  }

  /** The store with one more signature under a held block. */
  function WithSignature(r: Replica, block: Block, signature: Signature): Replica
    requires Held(r, block)
  {
    var header := block.transaction.header;
    var f := r.forks[header.forkCnt];
    var a := f.agreements[header.transactionCnt];
    var more := Agreement(a.block, a.signatures + [signature], a.state);
    var g := Fork(f.genesis, f.threshold, f.genesisTimestamp, f.chainBlocks,
                  f.agreements[header.transactionCnt := more]);
    Replica(r.forks[header.forkCnt := g], r.queue, r.disputed, r.machine)
  }

  /** The store with one more block on the latest fork, and the machine in the state the block leads to. */
  function WithBlock(r: Replica, a: Agreement): Replica
    requires r.forks != []
  {
    var last := |r.forks| - 1;
    var f := r.forks[last];
    var g := Fork(f.genesis, f.threshold, f.genesisTimestamp, f.chainBlocks, f.agreements + [a]);
    Replica(r.forks[last := g], r.queue, r.disputed, a.state)
  }

  function MarkDisputed(r: Replica, fork: nat): Replica { Replica(r.forks, r.queue, r.disputed + {fork}, r.machine) }

  /** The time of the last block of a fork, or of its genesis when that is later. */
  function LastTime(f: Fork): nat {
    if f.agreements != [] && f.agreements[|f.agreements| - 1].block.transaction.header.timestamp > f.genesisTimestamp
    then f.agreements[|f.agreements| - 1].block.transaction.header.timestamp else f.genesisTimestamp
  }

  /** The client can build evidence that the block is incorrect: it is the first of its fork, or the blocks at its
      height and below are held and the lower one has its author's signature. */
  predicate Provable(c: Client, r: Replica, block: Block) {
    var header := block.transaction.header;
    header.transactionCnt > 0 ==>
      && header.forkCnt < |r.forks| && header.transactionCnt < |r.forks[header.forkCnt].agreements|
      && var prior := r.forks[header.forkCnt].agreements[header.transactionCnt - 1];
         exists i :: 0 <= i < |prior.signatures|
                     && c.env.recover(c.env.blockHash(prior.block), prior.signatures[i])
                        == Some(prior.block.transaction.header.participant)
  }

  lemma ProvableIs(c: Client, r: Replica, block: Block)
    ensures CanProveIncorrectData(c.env, r, block) <==> Provable(c, r, block)
  {
    if block.Height() > 0 && r.Known(block.Fork(), block.Height()) {
      var prior := r.AgreementAt(block.Fork(), block.Height() - 1);
      SignsIs(c.env, prior.block, prior.signatures, prior.block.Author());
    }
  }

  lemma SignsIs(env: Env, block: Block, signatures: seq<Signature>, a: Address)
    ensures env.Signs(block, signatures, a) <==>
            exists i :: 0 <= i < |signatures| && env.recover(env.blockHash(block), signatures[i]) == Some(a)
  {
    if env.Signs(block, signatures, a) {
      var s :| s in signatures && env.Signer(block, s) == Some(a);
      var i :| 0 <= i < |signatures| && signatures[i] == s;
    }
    if i :| 0 <= i < |signatures| && env.recover(env.blockHash(block), signatures[i]) == Some(a) {
      assert signatures[i] in signatures && env.Signer(block, signatures[i]) == Some(a);
    }
  }

  /** On any run a held height can be proved wrong, and above height 0 no other can. */
  lemma ProvableOnRuns(c: Client, machine: Bytes, steps: seq<R.Step>, block: Block)
    requires c.OwnsSigner()
    ensures var r := R.Run(c, machine, steps).replica;
            Provable(c, r, block) <==> block.Height() == 0 || r.Known(block.Fork(), block.Height())
  {
    var t, fork := R.Run(c, machine, steps), block.Fork();
    R.RunKeeps(c, machine, steps);
    if block.Height() > 0 && t.replica.Known(fork, block.Height()) {
      var prior := t.replica.AgreementAt(fork, block.Height() - 1);
      assert R.ForkSound(c, t.replica.forks[fork], fork, t.Sound(fork));
      assert R.Authenticated(c, fork, block.Height() - 1, prior);
      assert c.env.recover(c.env.blockHash(prior.block), prior.signatures[0]) == Some(prior.block.Author());
    }
  }

  // ---------- a signed block arrives ----------

  /** A block that is refused as incorrect marks its fork as disputed when that can be proved. */
  function Refused(c: Client, r: Replica, block: Block): Result {
    Result(if Provable(c, r, block) then MarkDisputed(r, block.transaction.header.forkCnt) else r,
           Disputed(Some(AgreementFlag.IncorrectData)))
  }

  /** The block is not from this channel, or not signed by its author. A signature that can not be read is an exception,
      after which the client still confirms the block if it holds it and has not yet. */
  lemma UnauthenticArrival(c: Client, r: Replica, signed: SignedBlock, clock: nat, chainTime: nat)
    requires var header := signed.block.transaction.header;
             header.channelId != c.channelId || SignerOf(c, signed) != Some(header.participant)
    ensures var block := signed.block;
            var mine := c.sign(c.env.blockHash(block));
            OnSignedBlock(c, r, signed, clock, chainTime) ==
            if block.transaction.header.channelId != c.channelId || SignerOf(c, signed).Some? then Result(r, Disconnect)
            else if Held(r, block) && var header := block.transaction.header;
                    mine !in r.forks[header.forkCnt].agreements[header.transactionCnt].signatures
            then Result(WithSignature(r, block, mine), Thrown)
            else Result(r, Thrown)
  {}

  /** The block is from this channel and signed by its author. */
  predicate Authored(c: Client, signed: SignedBlock) {
    var header := signed.block.transaction.header;
    header.channelId == c.channelId && SignerOf(c, signed) == Some(header.participant)
  }

  /** Past and disputed forks, known blocks, and blocks that come early: only the last leave something, in the queue. */
  lemma UntimelyArrival(c: Client, r: Replica, signed: SignedBlock, clock: nat, chainTime: nat)
    requires Authored(c, signed)
    ensures var block, header := signed.block, signed.block.transaction.header;
            var past := header.forkCnt + 1 < |r.forks| || header.forkCnt in r.disputed;
            var known := Held(r, block) || Waiting(r, block);
            var early := if r.forks == [] then header.forkCnt > 0 || header.transactionCnt > 0
                         else header.forkCnt >= |r.forks|
                              || header.transactionCnt > |r.forks[|r.forks| - 1].agreements|;
            var arrived := OnSignedBlock(c, r, signed, clock, chainTime);
            && (past ==> arrived == Result(r, PastFork))
            && (!past && known ==> arrived == Result(r, Duplicate))
            && (!past && !known && early ==>
                  arrived == Result(Replica(r.forks,
                                            r.queue[(header.forkCnt, header.transactionCnt, header.participant) :=
                                                    signed],
                                            r.disputed, r.machine), NotReady))
  {}

  /** A new block of the latest, undisputed fork, by one of its participants. */
  predicate Timely(c: Client, r: Replica, signed: SignedBlock) {
    var header := signed.block.transaction.header;
    && Authored(c, signed) && r.forks != []
    && header.forkCnt == |r.forks| - 1 && header.forkCnt !in r.disputed
    && !Held(r, signed.block) && !Waiting(r, signed.block)
  }

  /** A stranger's block is not looked at further. */
  lemma StrangersArrival(c: Client, r: Replica, signed: SignedBlock, clock: nat, chainTime: nat)
    requires Timely(c, r, signed)
    requires signed.block.transaction.header.transactionCnt <= |r.forks[|r.forks| - 1].agreements|
    requires signed.block.transaction.header.participant !in r.forks[|r.forks| - 1].threshold
    ensures OnSignedBlock(c, r, signed, clock, chainTime) == Result(r, Disconnect)
  {}

  /** A block at a height that is taken: a double sign when the same author holds the height, and incorrect otherwise.
      */
  lemma ConflictingArrival(c: Client, r: Replica, signed: SignedBlock, clock: nat, chainTime: nat)
    requires Timely(c, r, signed)
    requires signed.block.transaction.header.transactionCnt < |r.forks[|r.forks| - 1].agreements|
    requires signed.block.transaction.header.participant in r.forks[|r.forks| - 1].threshold
    ensures var header := signed.block.transaction.header;
            var held := r.forks[header.forkCnt].agreements[header.transactionCnt].block;
            OnSignedBlock(c, r, signed, clock, chainTime) ==
            if held.transaction.header.participant == header.participant
            then Result(MarkDisputed(r, header.forkCnt), Disputed(Some(AgreementFlag.DoubleSign)))
            else Refused(c, r, signed.block)
  {
    ProvableIs(c, r, signed.block);
  }

  lemma NextIsJudged(c: Client, r: Replica, signed: SignedBlock, clock: nat, chainTime: nat)
    requires Timely(c, r, signed)
    requires signed.block.transaction.header.transactionCnt == |r.forks[|r.forks| - 1].agreements|
    requires signed.block.transaction.header.participant in r.forks[|r.forks| - 1].threshold
    ensures ValidateSignedBlock(c, r, signed, clock, chainTime) == NextBlockVerdict(c, r, signed, clock, chainTime)
  {}

  lemma JudgedIsDecided(c: Client, r: Replica, signed: SignedBlock, clock: nat, chainTime: nat)
    requires r.forks != [] && signed.block.Fork() == |r.forks| - 1
    requires signed.block.Height() == |r.forks[|r.forks| - 1].agreements|
    ensures var judged := NextBlockVerdict(c, r, signed, clock, chainTime);
            Decide(c, judged.replica, signed, judged.verdict) == NextOutcome(c, r, signed, clock, chainTime)
  {
    ProvableIs(c, r, signed.block);
    ExecutedArrival(c, r, signed);
    TimelyWindow(c, r.forks[|r.forks| - 1], signed.block, chainTime);
  }

  /** A block at the next height. It is refused, or left alone, or appended with its signature and the client's own. */
  lemma NextArrival(c: Client, r: Replica, signed: SignedBlock, clock: nat, chainTime: nat)
    requires Timely(c, r, signed)
    requires signed.block.transaction.header.transactionCnt == |r.forks[|r.forks| - 1].agreements|
    requires signed.block.transaction.header.participant in r.forks[|r.forks| - 1].threshold
    ensures OnSignedBlock(c, r, signed, clock, chainTime) == NextOutcome(c, r, signed, clock, chainTime)
  {
    NextIsJudged(c, r, signed, clock, chainTime);
    JudgedIsDecided(c, r, signed, clock, chainTime);
  }

  /** Appending a block and adding the client's own confirmation. */
  lemma Confirmed(c: Client, r: Replica, signed: SignedBlock, state: Bytes)
    requires r.forks != [] && signed.block.Fork() == |r.forks| - 1
    requires signed.block.Height() == |r.forks[|r.forks| - 1].agreements|
    ensures var block := signed.block;
            var added := AddBlock(r.(machine := state), block, signed.signature, state);
            && added == Some(WithBlock(r, Agreement(block, [signed.signature], state)))
            && ConfirmBlock(added.value, block, c.MySignature(block)) ==
               if c.MySignature(block) == signed.signature then None
               else Some(WithBlock(r, Agreement(block, [signed.signature, c.MySignature(block)], state)))
  {
    var block, mine := signed.block, c.MySignature(signed.block);
    var f := r.forks[block.Fork()];
    var one, two := Agreement(block, [signed.signature], state), Agreement(block, [signed.signature, mine], state);
    assert [signed.signature] + [mine] == [signed.signature, mine];
    assert (f.agreements + [one])[|f.agreements| := two] == f.agreements + [two];
    var g, h := f.(agreements := f.agreements + [one]), f.(agreements := f.agreements + [two]);
    assert r.forks[block.Fork() := g][block.Fork() := h] == r.forks[block.Fork() := h];
  }

  /** Whether the block is in the window that begins with the last of the blocks, posts and the contract's answer. */
  predicate InWindow(c: Client, f: Fork, block: Block, chainTime: nat) {
    var header, posted := block.transaction.header, f.LatestPostedTimestamp(block.transaction.header.transactionCnt);
    || header.timestamp <= LastTime(f) + c.times.p2p
    || header.timestamp <= posted + c.times.p2p
    || header.timestamp <= chainTime + c.times.p2p
  }

  lemma TimelyWindow(c: Client, f: Fork, block: Block, chainTime: nat)
    ensures GoodTimestamp(c, f, block, chainTime) <==> InWindow(c, f, block, chainTime)
  {}

  function NextOutcome(c: Client, r: Replica, signed: SignedBlock, clock: nat, chainTime: nat): Result
    requires r.forks != []
  {
    var block, f := signed.block, r.forks[|r.forks| - 1];
    var time, writer := block.transaction.header.timestamp, c.env.nextToWrite(r.machine);
    if time < LastTime(f) then Result(r, Thrown)
    else if !InWindow(c, f, block, chainTime) then Refused(c, r, block)
    else if writer == c.me && clock > time + 5 then Result(r, NotEnoughTime)
    else if writer == c.me && time > clock + 10 then Result(MarkDisputed(r, |r.forks| - 1), Thrown)
    else if block.transaction.header.participant != writer then Refused(c, r, block)
    else ExecutionOutcome(c, r, signed)
  }

  /** The machine refuses the transaction, or a hash of the block is wrong, and then the machine has moved; or the block
      is appended. */
  function ExecutionOutcome(c: Client, r: Replica, signed: SignedBlock): Result
    requires r.forks != []
  {
    var block, mine := signed.block, c.sign(c.env.blockHash(signed.block));
    match c.env.step(r.machine, block.transaction)
    case None => Refused(c, r, block)
    case Some(state) =>
      if block.stateHash != c.env.keccak(state) || block.previousStateHash != c.env.keccak(r.machine)
      then Refused(c, Replica(r.forks, r.queue, r.disputed, state), block)
      else if mine == signed.signature then Result(WithBlock(r, Agreement(block, [mine], state)), Thrown)
      else Result(WithBlock(r, Agreement(block, [signed.signature, mine], state)), Success)
  }

  lemma ExecutedArrival(c: Client, r: Replica, signed: SignedBlock)
    requires r.forks != [] && signed.block.Fork() == |r.forks| - 1
    requires signed.block.Height() == |r.forks[|r.forks| - 1].agreements|
    ensures var executed := ProcessStateTransition(c, r, signed);
            Decide(c, executed.replica, signed, executed.verdict) == ExecutionOutcome(c, r, signed)
  {
    var block := signed.block;
    ProvableIs(c, r, block);
    if c.env.step(r.machine, block.transaction).Some? {
      var state := c.env.step(r.machine, block.transaction).value;
      ProvableIs(c, r.(machine := state), block);
      Confirmed(c, r, signed, state);
    }
  }

  // ---------- a confirmation arrives ----------

  /** A confirmation of a held block of the latest fork: appended when it is new and by a participant; known, foreign
      and unreadable ones change nothing. */
  lemma ConfirmationOfHeld(c: Client, r: Replica, signed: SignedBlock, confirmation: Signature, clock: nat,
                           chainTime: nat)
    requires Authored(c, signed) && Held(r, signed.block) && signed.block.transaction.header.forkCnt == |r.forks| - 1
    ensures var block, header := signed.block, signed.block.transaction.header;
            var signatures := r.forks[header.forkCnt].agreements[header.transactionCnt].signatures;
            OnBlockConfirmation(c, r, signed, confirmation, clock, chainTime) ==
            match c.env.recover(c.env.blockHash(block), confirmation)
            case None => Result(r, Thrown)
            case Some(a) =>
              if a !in r.forks[header.forkCnt].threshold then Result(r, Disconnect)
              else if confirmation in signatures then Result(r, Duplicate)
              else Result(WithSignature(r, block, confirmation), Success)
  {}

  /** A confirmation of a block of a past fork, of another channel, or not signed by its author changes nothing. */
  lemma ConfirmationOfOther(c: Client, r: Replica, signed: SignedBlock, confirmation: Signature, clock: nat,
                            chainTime: nat)
    requires !Authored(c, signed) || signed.block.transaction.header.forkCnt + 1 < |r.forks|
    ensures var header := signed.block.transaction.header;
            OnBlockConfirmation(c, r, signed, confirmation, clock, chainTime) ==
            Result(r, if Authored(c, signed) then PastFork
                      else if header.channelId == c.channelId && SignerOf(c, signed) == None then Thrown
                      else Disconnect)
  {}

  /** A confirmation of a block that is not held: the block is taken like one that arrives alone. When it is appended
      the confirmation is then added as to a held block. When it has to wait, or waits already, the confirmation is lost
      in an exception. */
  lemma ConfirmationOfNew(c: Client, r: Replica, signed: SignedBlock, confirmation: Signature, clock: nat,
                          chainTime: nat)
    requires Authored(c, signed) && !Held(r, signed.block) && signed.block.transaction.header.forkCnt + 1 >= |r.forks|
    ensures var arrived := OnSignedBlock(c, r, signed, clock, chainTime);
            && (arrived.verdict == Success ==>
                  Held(arrived.replica, signed.block)
                  && signed.block.transaction.header.forkCnt == |arrived.replica.forks| - 1)
            && OnBlockConfirmation(c, r, signed, confirmation, clock, chainTime) ==
               if arrived.verdict == Success
               then OnBlockConfirmation(c, arrived.replica, signed, confirmation, clock, chainTime)
               else if arrived.verdict == NotReady || arrived.verdict == Duplicate then Result(arrived.replica, Thrown)
               else arrived
  {
    ArrivedIsHeld(c, r, signed, clock, chainTime);
  }

  lemma ArrivedIsHeld(c: Client, r: Replica, signed: SignedBlock, clock: nat, chainTime: nat)
    requires Authored(c, signed) && !Held(r, signed.block)
    ensures var arrived := OnSignedBlock(c, r, signed, clock, chainTime);
            && (arrived.verdict == Success ==>
                  Held(arrived.replica, signed.block)
                  && signed.block.transaction.header.forkCnt == |arrived.replica.forks| - 1)
            && (arrived.verdict == Duplicate ==> !Held(arrived.replica, signed.block))
  {}

  // ---------- the client's own block ----------

  /** The client plays exactly in its own turn, when the machine accepts the transaction. The block is stamped with the
      clock, or with the second after the last block when the clock is behind, and appended under the client's own
      signature. */
  lemma PlayOutcome(c: Client, r: Replica, body: Bytes, clock: nat)
    ensures PlayTransaction(c, r, body, clock) ==
            if r.forks == [] || c.env.nextToWrite(r.machine) != c.me then Result(r, Thrown)
            else
              var last := |r.forks| - 1;
              var f := r.forks[last];
              var time := if clock >= LastTime(f) then clock else LastTime(f) + 1;
              var tx := Transaction(Header(c.channelId, c.me, last, |f.agreements|, time), body);
              match c.env.step(r.machine, tx)
              case None => Result(r, Thrown)
              case Some(state) =>
                var block := Block(tx, c.env.keccak(state), c.env.keccak(r.machine));
                Result(WithBlock(r, Agreement(block, [c.sign(c.env.blockHash(block))], state)), Success)
  {}

  // ---------- what the contract's events do ----------

  /** A state set on chain moves the machine; a fork is recorded only under the next number. */
  lemma SetStateOutcome(c: Client, r: Replica, state: Bytes, forkCnt: nat, timestamp: nat)
    ensures SetState(c, r, state, forkCnt, timestamp) ==
            Replica(if forkCnt == |r.forks| then r.forks + [Fork(state, c.env.participants(state), timestamp, [], [])]
                    else r.forks, r.queue, r.disputed, state)
  {}

  /** The fork of a posted block is known and has no record for its height and author yet. */
  predicate Unrecorded(r: Replica, block: Block) {
    var header := block.transaction.header;
    && header.forkCnt < |r.forks|
    && forall i :: 0 <= i < |r.forks[header.forkCnt].chainBlocks| ==>
         var posted := r.forks[header.forkCnt].chainBlocks[i];
         posted.transactionCnt != header.transactionCnt || posted.participant != header.participant
  }

  /** The store with the record of a post, if it is the first one. */
  function WithRecord(r: Replica, block: Block, timestamp: nat): Replica {
    if !Unrecorded(r, block) then r
    else
      var header := block.transaction.header;
      var f := r.forks[header.forkCnt];
      var record := ChainBlock(header.transactionCnt, header.participant, timestamp);
      var g := Fork(f.genesis, f.threshold, f.genesisTimestamp, f.chainBlocks + [record], f.agreements);
      Replica(r.forks[header.forkCnt := g], r.queue, r.disputed, r.machine)
  }

  /** The state hash that a block at its height must build on, where the client has one. */
  function HashBefore(c: Client, r: Replica, header: Header): Option<Hash> {
    if header.forkCnt >= |r.forks| then None
    else if header.transactionCnt == 0 then Some(c.env.keccak(r.forks[header.forkCnt].genesis))
    else if header.transactionCnt <= |r.forks[header.forkCnt].agreements|
    then Some(r.forks[header.forkCnt].agreements[header.transactionCnt - 1].block.stateHash)
    else None
  }

  /** The height is taken by some block. */
  predicate Taken(r: Replica, header: Header) {
    header.forkCnt < |r.forks| && header.transactionCnt < |r.forks[header.forkCnt].agreements|
  }

  /** The verdict of the block checker; None when the signature can not be read. */
  lemma CheckOutcome(c: Client, r: Replica, signed: SignedBlock)
    ensures var block, header := signed.block, signed.block.transaction.header;
            Check(c.env, r, signed) ==
            if SignerOf(c, signed) == None then None
            else if SignerOf(c, signed) != Some(header.participant) then Some(InvalidSignature)
            else if Held(r, block) || Waiting(r, block) then Some(DuplicateBlock)
            else if Taken(r, header) then
              if r.forks[header.forkCnt].agreements[header.transactionCnt].block.transaction.header.participant
                 == header.participant
              then Some(AgreementFlag.DoubleSign) else Some(AgreementFlag.IncorrectData)
            else if HashBefore(c, r, header) == None then Some(NotReadyYet)
            else if HashBefore(c, r, header) == Some(block.previousStateHash) then Some(Ready)
            else Some(AgreementFlag.IncorrectData)
  {}

  /** A block that its author posted on chain: a double sign and, where it can be proved, an incorrect block mark the
      fork; a known block is recorded; any other is queued and recorded. */
  lemma CollectOutcome(c: Client, r: Replica, signed: SignedBlock, timestamp: nat)
    ensures var block, header := signed.block, signed.block.transaction.header;
            var queued := Replica(r.forks,
                                  r.queue[(header.forkCnt, header.transactionCnt, header.participant) := signed],
                                  r.disputed, r.machine);
            Collect(c, r, signed, timestamp) ==
            if SignerOf(c, signed) != Some(header.participant) then r
            else if Held(r, block) || Waiting(r, block) then WithRecord(r, block, timestamp)
            else if Taken(r, header)
                    && r.forks[header.forkCnt].agreements[header.transactionCnt].block.transaction.header.participant
                       == header.participant
            then MarkDisputed(r, header.forkCnt)
            else if Taken(r, header)
                    || (HashBefore(c, r, header).Some? && HashBefore(c, r, header).value != block.previousStateHash)
            then Refused(c, r, block).replica
            else WithRecord(queued, block, timestamp)
  {
    CheckOutcome(c, r, signed);
    ProvableIs(c, r, signed.block);
    RecordOutcome(r, signed, DuplicateBlock, timestamp);
    RecordOutcome(r, signed, Ready, timestamp);
    RecordOutcome(r, signed, NotReadyYet, timestamp);
  }

  /** When collecting a posted block throws: its signature can not be read, it is a new block that is wrong without the
      client being able to prove it, or it is one by its author on a fork that the client does not know. */
  lemma CollectThrowsOutcome(c: Client, r: Replica, signed: SignedBlock)
    ensures var block, header := signed.block, signed.block.transaction.header;
            CollectThrows(c, r, signed) <==>
            || SignerOf(c, signed) == None
            || (SignerOf(c, signed) == Some(header.participant)
                && if header.forkCnt >= |r.forks| then true
                   else if Held(r, block) || Waiting(r, block) || Provable(c, r, block) then false
                   else if Taken(r, header)
                   then r.forks[header.forkCnt].agreements[header.transactionCnt].block.transaction.header.participant
                        != header.participant
                   else HashBefore(c, r, header).Some? && HashBefore(c, r, header).value != block.previousStateHash)
  {
    CheckOutcome(c, r, signed);
    ProvableIs(c, r, signed.block);
  }

  lemma RecordOutcome(r: Replica, signed: SignedBlock, flag: AgreementFlag, timestamp: nat)
    ensures var header := signed.block.transaction.header;
            var queued := Replica(r.forks,
                                  r.queue[(header.forkCnt, header.transactionCnt, header.participant) := signed],
                                  r.disputed, r.machine);
            Record(r, signed, flag, timestamp) ==
            WithRecord(if flag == DuplicateBlock then r else queued, signed.block, timestamp)
  {
    var block := signed.block;
    if block.Fork() < |r.forks| {
      var f := r.forks[block.Fork()];
      if f.HasPosted(block.Height(), block.Author()) {
        var posted :| posted in f.chainBlocks && posted.transactionCnt == block.Height()
                      && posted.participant == block.Author();
        var i :| 0 <= i < |f.chainBlocks| && f.chainBlocks[i] == posted;
      }
    }
  }

  /** What is taken out of the queue is what waits for that fork and height. */
  lemma DequeueOutcome(r: Replica, fork: nat, height: nat)
    ensures var after := Dequeue(r, fork, height);
            && (forall key :: key in after.queue <==> key in r.queue && (key.0 != fork || key.1 != height))
            && (forall key :: key in after.queue ==> after.queue[key] == r.queue[key])
            && after == Replica(r.forks, after.queue, r.disputed, r.machine)
  {}

  // ---------- disputed forks ----------

  /** A dispute that is seen on chain marks its fork, and nothing else changes. */
  lemma SeenOutcome(c: Client, r: Replica, fork: nat)
    ensures R.Next(c, r, R.DisputeSeen(fork)) == MarkDisputed(r, fork)
  {}

  lemma SignedBlockMarks(c: Client, r: Replica, signed: SignedBlock, clock: nat, chainTime: nat)
    ensures r.disputed <= OnSignedBlock(c, r, signed, clock, chainTime).replica.disputed
  {
    var v := ValidateSignedBlock(c, r, signed, clock, chainTime);
    assert r.disputed <= v.replica.disputed;
    assert v.replica.disputed <= Decide(c, v.replica, signed, v.verdict).replica.disputed;
  }

  lemma StepMarks(c: Client, r: Replica, step: R.Step)
    ensures r.disputed <= R.Next(c, r, step).disputed
  {
    match step
    case SignedBlockArrives(signed, clock, chainTime) => SignedBlockMarks(c, r, signed, clock, chainTime);
    case ConfirmationArrives(signed, confirmation, clock, chainTime) =>
      SignedBlockMarks(c, r, signed, clock, chainTime);
      R.ConfirmationShape(c, r, signed, confirmation, clock, chainTime);
    case CalldataPosted(signed, timestamp) => CollectOutcome(c, r, signed, timestamp);
    case _ =>
  }

  /** A fork of which a dispute was seen stays marked for the rest of the run. */
  lemma {:induction false} SeenIsMarked(c: Client, machine: Bytes, steps: seq<R.Step>, i: nat)
    requires i < |steps| && steps[i].DisputeSeen?
    ensures steps[i].fork in R.Run(c, machine, steps).replica.disputed
  {
    var last := |steps| - 1;
    var before := R.Run(c, machine, steps[..last]).replica;
    if i < last {
      SeenIsMarked(c, machine, steps[..last], i);
      StepMarks(c, before, steps[last]);
    } else {
      SeenOutcome(c, before, steps[last].fork);
    }
  }

  // ---------- posts are recorded once ----------

  ghost predicate RecordsOnce(f: Fork) {
    forall i, j :: 0 <= i < j < |f.chainBlocks| ==>
      || f.chainBlocks[i].transactionCnt != f.chainBlocks[j].transactionCnt
      || f.chainBlocks[i].participant != f.chainBlocks[j].participant
  }

  ghost predicate AllOnce(r: Replica) { forall fork: nat :: fork < |r.forks| ==> RecordsOnce(r.forks[fork]) }

  lemma WithRecordOnce(r: Replica, block: Block, timestamp: nat)
    requires AllOnce(r)
    ensures AllOnce(WithRecord(r, block, timestamp))
    ensures !Unrecorded(WithRecord(r, block, timestamp), block) || block.transaction.header.forkCnt >= |r.forks|
  {
    var after, fork := WithRecord(r, block, timestamp), block.transaction.header.forkCnt;
    if Unrecorded(r, block) {
      assert after.forks[fork].chainBlocks[|r.forks[fork].chainBlocks|]
             == ChainBlock(block.Height(), block.Author(), timestamp);
    }
    forall k: nat | k < |after.forks| ensures RecordsOnce(after.forks[k]) {
      assert RecordsOnce(r.forks[k]);
    }
  }

  lemma SameRecordsOnce(r: Replica, after: Replica)
    requires AllOnce(r) && |after.forks| >= |r.forks|
    requires forall fork :: 0 <= fork < |r.forks| ==> after.forks[fork].chainBlocks == r.forks[fork].chainBlocks
    requires forall fork :: |r.forks| <= fork < |after.forks| ==> after.forks[fork].chainBlocks == []
    ensures AllOnce(after)
  {
    forall fork: nat | fork < |after.forks| ensures RecordsOnce(after.forks[fork]) {
      if fork < |r.forks| { assert RecordsOnce(r.forks[fork]); }
    }
  }

  lemma CollectOnce(c: Client, r: Replica, posted: SignedBlock, timestamp: nat)
    requires AllOnce(r)
    ensures AllOnce(Collect(c, r, posted, timestamp))
  {
    var header := posted.block.transaction.header;
    var queued := Replica(r.forks, r.queue[(header.forkCnt, header.transactionCnt, header.participant) := posted],
                          r.disputed, r.machine);
    CollectOutcome(c, r, posted, timestamp);
    SameRecordsOnce(r, queued);
    WithRecordOnce(queued, posted.block, timestamp);
    WithRecordOnce(r, posted.block, timestamp);
    var after := Collect(c, r, posted, timestamp);
    if after.forks == r.forks { SameRecordsOnce(r, after); }
  }

  lemma StepOnce(c: Client, r: Replica, step: R.Step)
    requires AllOnce(r)
    ensures AllOnce(R.Next(c, r, step))
  {
    var after := R.Next(c, r, step);
    match step
    case CalldataPosted(posted, timestamp) => CollectOnce(c, r, posted, timestamp);
    case SignedBlockArrives(signed, clock, chainTime) =>
      J.SignedBlockRecords(c, r, signed, clock, chainTime);
      SameRecordsOnce(r, after);
    case ConfirmationArrives(signed, confirmation, clock, chainTime) =>
      ConfirmationRecords(c, r, step);
      SameRecordsOnce(r, after);
    case _ => SameRecordsOnce(r, after);
  }

  lemma ConfirmationRecords(c: Client, r: Replica, step: R.Step)
    requires step.ConfirmationArrives?
    ensures var after := R.Next(c, r, step);
            && |after.forks| == |r.forks|
            && forall fork :: 0 <= fork < |r.forks| ==> after.forks[fork].chainBlocks == r.forks[fork].chainBlocks
  {
    R.ConfirmationShape(c, r, step.original, step.confirmation, step.clock, step.chainTime);
    J.SignedBlockRecords(c, r, step.original, step.clock, step.chainTime);
  }

  /** On every run a post is recorded at most once for its height and author. */
  lemma {:induction false} RunRecordsOnce(c: Client, machine: Bytes, steps: seq<R.Step>)
    ensures AllOnce(R.Run(c, machine, steps).replica)
  {
    if steps != [] {
      RunRecordsOnce(c, machine, steps[..|steps| - 1]);
      StepOnce(c, R.Run(c, machine, steps[..|steps| - 1]).replica, steps[|steps| - 1]);
    }
  }
}
