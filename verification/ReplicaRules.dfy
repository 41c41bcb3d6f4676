/** The client as functions of its state: the agreementManager services, ValidationService.ts and the steps of
    StateManager.ts. One mutex-held section is one step. */
module ReplicaRules {
  import opened Types

  datatype Agreement = Agreement(block: Block, signatures: seq<Signature>, state: Bytes)

  datatype ChainBlock = ChainBlock(transactionCnt: nat, participant: Address, timestamp: nat)

  datatype Fork = Fork(
    genesis: Bytes, threshold: seq<Address>, genesisTimestamp: nat,
    chainBlocks: seq<ChainBlock>, agreements: seq<Agreement>)
  {
    /** The state after the first `n` agreements. */
    function StateAfter(n: nat): Bytes
      requires n <= |agreements|
    {
      if n == 0 then genesis else agreements[n - 1].state
    }

    function LastState(): Bytes { StateAfter(|agreements|) }

    /** BlockValidator.latestBlockTimestamp. */
    function LatestBlockTimestamp(): nat {
      var last := if agreements == [] then 0 else agreements[|agreements| - 1].block.Timestamp();
      if last > genesisTimestamp then last else genesisTimestamp
    }

    /** OnChainTracker.latestTimestamp on the first `n` records. */
    function LatestPosted(maxHeight: nat, n: nat): nat
      requires n <= |chainBlocks|
    {
      if n == 0 then 0
      else
        var before := LatestPosted(maxHeight, n - 1);
        var posted := chainBlocks[n - 1];
        if posted.transactionCnt <= maxHeight && posted.timestamp > before then posted.timestamp else before
    }

    function LatestPostedTimestamp(maxHeight: nat): nat { LatestPosted(maxHeight, |chainBlocks|) }

    function LatestRelevantTimestamp(maxHeight: nat): nat {
      var block, posted := LatestBlockTimestamp(), LatestPostedTimestamp(maxHeight);
      if posted > block then posted else block
    }

    predicate HasPosted(height: nat, a: Address) {
      exists posted <- chainBlocks :: posted.transactionCnt == height && posted.participant == a
    }
  }

  type BlockQueue = map<(nat, nat, Address), SignedBlock>

  /** `disputed` is DisputeHandler.disputedForks; `machine` is the state held by the local state machine. */
  datatype Replica = Replica(forks: seq<Fork>, queue: BlockQueue, disputed: set<nat>, machine: Bytes) {
    function LatestFork(): nat { if forks == [] then 0 else |forks| - 1 }

    function NextHeight(): nat { if forks == [] then 0 else |forks[|forks| - 1].agreements| }

    predicate Known(fork: nat, height: int) { fork < |forks| && 0 <= height < |forks[fork].agreements| }

    function AgreementAt(fork: nat, height: int): Agreement
      requires Known(fork, height)
    {
      forks[fork].agreements[height]
    }

    predicate InChain(block: Block) {
      Known(block.Fork(), block.Height()) && AgreementAt(block.Fork(), block.Height()).block == block
    }

    predicate Queued(block: Block) {
      var key := (block.Fork(), block.Height(), block.Author());
      key in queue && queue[key].block == block
    }

    predicate InLatestFork(a: Address) { forks != [] && a in forks[|forks| - 1].threshold }

    function Enqueue(signed: SignedBlock): Replica {
      this.(queue := queue[(signed.block.Fork(), signed.block.Height(), signed.block.Author()) := signed])
    }

    function WithFork(fork: nat, f: Fork): Replica
      requires fork < |forks|
    {
      this.(forks := forks[fork := f])
    }
  }

  /** What is fixed for one client: its address and signer, the channel, and the contract's times. */
  datatype Client = Client(env: Env, me: Address, sign: Hash -> Signature, channelId: ChannelId, times: Times) {
    function MySignature(block: Block): Signature { sign(env.blockHash(block)) }

    /** The wallet signs for the client's own address. */
    ghost predicate OwnsSigner() {
      forall h :: env.recover(h, sign(h)) == Some(me)
    }

    lemma MySignatureIsMine(block: Block)
      requires OwnsSigner()
      ensures env.Signer(block, MySignature(block)) == Some(me)
    {
      var h := env.blockHash(block);
      assert env.recover(h, sign(h)) == Some(me);
    }
  }

  datatype AgreementFlag = InvalidSignature | Ready | DuplicateBlock | IncorrectData | DoubleSign | NotReadyYet

  /** `Thrown` stands for an exception; `Disputed(None)` is the verdict without an agreement flag. */
  datatype Verdict =
    | Success | NotReady | Duplicate | Disconnect | Disputed(flag: Option<AgreementFlag>)
    | NotEnoughTime | PastFork | Thrown

  datatype Result = Result(replica: Replica, verdict: Verdict)

  // ---------- agreementManager ----------

  /** BlockValidator.check; None when reading the signature throws. */
  function Check(env: Env, r: Replica, signed: SignedBlock): Option<AgreementFlag> {
    var block := signed.block;
    var fork, height := block.Fork(), block.Height();
    match env.Signer(block, signed.signature)
    case None => None
    case Some(signer) =>
      Some(
        if signer != block.Author() then InvalidSignature
        else if r.InChain(block) || r.Queued(block) then DuplicateBlock
        else if fork >= |r.forks| then NotReadyYet
        else if r.Known(fork, height) then
          if r.AgreementAt(fork, height).block.Author() == block.Author() then DoubleSign else IncorrectData
        else if height == 0 then
          if block.previousStateHash == env.keccak(r.forks[fork].genesis) then Ready else IncorrectData
        else if !r.Known(fork, height - 1) then NotReadyYet
        else if r.AgreementAt(fork, height - 1).block.stateHash == block.previousStateHash then Ready
        else IncorrectData)
  }

  /** AgreementManager.confirmBlock; None when it throws. */
  function ConfirmBlock(r: Replica, block: Block, signature: Signature): Option<Replica> {
    var fork, height := block.Fork(), block.Height();
    if !r.InChain(block) || signature in r.AgreementAt(fork, height).signatures then None
    else
      var f, a := r.forks[fork], r.AgreementAt(fork, height);
      Some(r.WithFork(fork, f.(agreements := f.agreements[height := a.(signatures := a.signatures + [signature])])))
  }

  /** ForkService.addBlock; None when it throws. */
  function AddBlock(r: Replica, block: Block, signature: Signature, state: Bytes): Option<Replica> {
    if block.Fork() >= |r.forks| || r.Known(block.Fork(), block.Height()) then None
    else
      var f := r.forks[block.Fork()];
      Some(r.WithFork(block.Fork(), f.(agreements := f.agreements + [Agreement(block, [signature], state)])))
  }

  /** AgreementManager.didEveryoneSignBlock: false for a block that is not the recorded one. */
  predicate DidEveryoneSign(env: Env, r: Replica, block: Block) {
    && r.InChain(block)
    && forall a <- r.forks[block.Fork()].threshold ::
         env.Signs(block, r.AgreementAt(block.Fork(), block.Height()).signatures, a)
  }

  /** ProofManager.createIncorrectDataProof throws for a block that is not the first of its fork unless the
      chain holds the prior block, its author's signature, and a state at the block's own height. */
  predicate CanProveIncorrectData(env: Env, r: Replica, block: Block) {
    block.Height() > 0 ==>
      && r.Known(block.Fork(), block.Height() - 1)
      && r.Known(block.Fork(), block.Height())
      && var prior := r.AgreementAt(block.Fork(), block.Height() - 1);
         env.Signs(prior.block, prior.signatures, prior.block.Author())
  }

  // ---------- ValidationService ----------

  const TOLERANCE_PAST: int := 5
  const TOLERANCE_FUTURE: int := 10

  /** isGoodTimestamp past its first check; `chainTime` is what the contract answers if it is asked. */
  predicate GoodTimestamp(c: Client, f: Fork, block: Block, chainTime: nat) {
    var reference := f.LatestRelevantTimestamp(block.Height());
    var updated := if chainTime > reference then chainTime else reference;
    block.Timestamp() > reference + c.times.p2p ==> block.Timestamp() <= updated + c.times.p2p
  }

  function Authentic(c: Client, signed: SignedBlock): Option<bool> {
    if signed.block.ChannelOf() != c.channelId then Some(false)
    else match c.env.Signer(signed.block, signed.signature)
      case None => None
      case Some(signer) => Some(signer == signed.block.Author())
  }

  /** processStateTransition: a transaction that runs moves the machine even when a hash is then refused. */
  function ProcessStateTransition(c: Client, r: Replica, signed: SignedBlock): Result {
    var block := signed.block;
    match c.env.step(r.machine, block.transaction)
    case None => Result(r, Disputed(Some(IncorrectData)))
    case Some(state) =>
      var moved := r.(machine := state);
      if c.env.keccak(state) != block.stateHash || c.env.keccak(r.machine) != block.previousStateHash
      then Result(moved, Disputed(Some(IncorrectData)))
      else match AddBlock(moved, block, signed.signature, state)
        case None => Result(moved, Thrown)
        case Some(added) => Result(added, Success)
  }

  /** The verdict on a block at the next height of the latest fork, by a participant of that fork. */
  function NextBlockVerdict(c: Client, r: Replica, signed: SignedBlock, clock: nat, chainTime: nat): Result
    requires signed.block.Fork() < |r.forks|
  {
    var block, f := signed.block, r.forks[signed.block.Fork()];
    if block.Timestamp() < f.LatestBlockTimestamp() then Result(r, Thrown)
    else if !GoodTimestamp(c, f, block, chainTime) then Result(r, Disputed(Some(IncorrectData)))
    else
      var next := c.env.nextToWrite(r.machine);
      if next == c.me && clock - block.Timestamp() > TOLERANCE_PAST then Result(r, NotEnoughTime)
      else if next == c.me && clock - block.Timestamp() < -TOLERANCE_FUTURE
      then Result(r.(disputed := r.disputed + {r.LatestFork()}), Disputed(None))
      else if block.Author() != next then Result(r, Disputed(Some(IncorrectData)))
      else ProcessStateTransition(c, r, signed)
  }

  function ValidateSignedBlock(c: Client, r: Replica, signed: SignedBlock, clock: nat, chainTime: nat): Result {
    var block := signed.block;
    match Authentic(c, signed)
    case None => Result(r, Thrown)
    case Some(false) => Result(r, Disconnect)
    case Some(true) =>
      if block.Fork() < r.LatestFork() || block.Fork() in r.disputed then Result(r, PastFork)
      else if r.InChain(block) || r.Queued(block) then Result(r, Duplicate)
      else if block.Fork() > r.LatestFork() || block.Height() > r.NextHeight() then Result(r, NotReady)
      else if !r.InLatestFork(block.Author()) then Result(r, Disconnect)
      else if block.Height() < r.NextHeight() then
        match Check(c.env, r, signed)
        case Some(DoubleSign) => Result(r, Disputed(Some(DoubleSign)))
        case Some(IncorrectData) => Result(r, Disputed(Some(IncorrectData)))
        case _ => Result(r, Thrown)
      else NextBlockVerdict(c, r, signed, clock, chainTime)
  }

  // ---------- StateManager ----------

  /** The handler that runs after every verdict. It runs with the verdict's default, Success, when the
      validation threw. */
  function Decide(c: Client, r: Replica, block: SignedBlock, verdict: Verdict): Result {
    match verdict
    case Success =>
      (match ConfirmBlock(r, block.block, c.MySignature(block.block))
       case None => Result(r, Thrown)
       case Some(confirmed) => Result(confirmed, Success))
    case Thrown =>
      (match ConfirmBlock(r, block.block, c.MySignature(block.block))
       case None => Result(r, Thrown)
       case Some(confirmed) => Result(confirmed, Thrown))
    case NotReady => Result(r.Enqueue(block), NotReady)
    case Disputed(None) => Result(r, Thrown)
    case Disputed(Some(DoubleSign)) => Result(r.(disputed := r.disputed + {block.block.Fork()}), verdict)
    case Disputed(Some(_)) =>
      var proved := CanProveIncorrectData(c.env, r, block.block);
      Result(if proved then r.(disputed := r.disputed + {block.block.Fork()}) else r, verdict)
    case _ => Result(r, verdict)
  }

  function OnSignedBlock(c: Client, r: Replica, signed: SignedBlock, clock: nat, chainTime: nat): Result {
    var validated := ValidateSignedBlock(c, r, signed, clock, chainTime);
    Decide(c, validated.replica, signed, validated.verdict)
  }

  /** validateBlockConfirmation, and the confirmation of what it lets pass. */
  function ConfirmationVerdict(c: Client, r: Replica, signed: SignedBlock, confirmation: Signature, clock: nat,
                               chainTime: nat)
    : Result
  {
    var block := signed.block;
    match Authentic(c, signed)
    case None => Result(r, Thrown)
    case Some(false) => Result(r, Disconnect)
    case Some(true) =>
      if block.Fork() < r.LatestFork() then Result(r, PastFork)
      else
        var ensured := if r.InChain(block) then Result(r, Success) else OnSignedBlock(c, r, signed, clock, chainTime);
        if ensured.verdict == Duplicate && !ensured.replica.InChain(block) then Result(ensured.replica, NotReady)
        else if ensured.verdict != Success && ensured.verdict != Duplicate then ensured
        else Confirm(c, ensured.replica, block, confirmation)
  }

  /** onBlockConfirmation: the handler of a confirmation that is not ready throws, because its queue is not bound. */
  function OnBlockConfirmation(c: Client, r: Replica, signed: SignedBlock, confirmation: Signature, clock: nat,
                               chainTime: nat)
    : Result
  {
    var judged := ConfirmationVerdict(c, r, signed, confirmation, clock, chainTime);
    if judged.verdict == NotReady then judged.(verdict := Thrown) else judged
  }

  function Confirm(c: Client, r: Replica, block: Block, confirmation: Signature): Result {
    match c.env.Signer(block, confirmation)
    case None => Result(r, Thrown)
    case Some(confirmer) =>
      if !r.InLatestFork(confirmer) then Result(r, Disconnect)
      else match ConfirmBlock(r, block, confirmation)
        case None => Result(r, if r.InChain(block) then Duplicate else Thrown)
        case Some(confirmed) => Result(confirmed, Success)
  }

  /** What sendTransaction fills in, with the timestamp that adjustTimestampIfNeeded moves past the latest block's. */
  function OwnTransaction(c: Client, r: Replica, body: Bytes, clock: nat): Transaction
    requires r.forks != []
  {
    var latest := r.forks[r.LatestFork()].LatestBlockTimestamp();
    var timestamp := if clock < latest then latest + 1 else clock;
    Transaction(Header(c.channelId, c.me, r.LatestFork(), r.NextHeight(), timestamp), body)
  }

  /** The block that the client makes of it when the machine accepts it. */
  function OwnBlock(c: Client, r: Replica, body: Bytes, clock: nat): Block
    requires r.forks != [] && c.env.step(r.machine, OwnTransaction(c, r, body, clock)).Some?
  {
    var tx := OwnTransaction(c, r, body, clock);
    Block(tx, c.env.keccak(c.env.step(r.machine, tx).value), c.env.keccak(r.machine))
  }

  /** sendTransaction and playTransaction: the client authors the next block of the latest fork. */
  function PlayTransaction(c: Client, r: Replica, body: Bytes, clock: nat): Result {
    if c.env.nextToWrite(r.machine) != c.me || r.forks == [] then Result(r, Thrown)
    else match c.env.step(r.machine, OwnTransaction(c, r, body, clock))
      case None => Result(r, Thrown)
      case Some(state) =>
        var block := OwnBlock(c, r, body, clock);
        match AddBlock(r.(machine := state), block, c.MySignature(block), state)
        case None => Result(r.(machine := state), Thrown)
        case Some(added) => Result(added, Success)
  }

  /** setState: the machine is set in any case; the fork is recorded only when its number is the next one. */
  function SetState(c: Client, r: Replica, state: Bytes, forkCnt: nat, timestamp: nat): Replica {
    var moved := r.(machine := state);
    if |r.forks| != forkCnt then moved
    else moved.(forks := r.forks + [Fork(state, c.env.participants(state), timestamp, [], [])])
  }

  /** OnChainTracker.collect past its verdict; the block is queued before an unknown fork makes the recording throw. */
  function Record(r: Replica, signed: SignedBlock, flag: AgreementFlag, timestamp: nat): Replica {
    var block := signed.block;
    var queued := if flag == DuplicateBlock then r else r.Enqueue(signed);
    if block.Fork() >= |r.forks| || r.forks[block.Fork()].HasPosted(block.Height(), block.Author()) then queued
    else
      var f := r.forks[block.Fork()];
      var posted := ChainBlock(block.Height(), block.Author(), timestamp);
      queued.WithFork(block.Fork(), f.(chainBlocks := f.chainBlocks + [posted]))
  }

  /** When collectOnChainBlock throws: the signature can not be read, the evidence can not be built, or the fork is
      unknown. */
  predicate CollectThrows(c: Client, r: Replica, signed: SignedBlock) {
    match Check(c.env, r, signed)
    case None => true
    case Some(InvalidSignature) => false
    case Some(DoubleSign) => false
    case Some(IncorrectData) => !CanProveIncorrectData(c.env, r, signed.block)
    case Some(_) => signed.block.Fork() >= |r.forks|
  }

  /** StateManager.collectOnChainBlock. */
  function Collect(c: Client, r: Replica, signed: SignedBlock, timestamp: nat): Replica {
    var block := signed.block;
    match Check(c.env, r, signed)
    case None => r
    case Some(InvalidSignature) => r
    case Some(DoubleSign) => r.(disputed := r.disputed + {block.Fork()})
    case Some(IncorrectData) =>
      if CanProveIncorrectData(c.env, r, block) then r.(disputed := r.disputed + {block.Fork()}) else r
    case Some(flag) => Record(r, signed, flag, timestamp)
  }

  /** tryDequeueBlocks: what is queued for one height leaves the queue. */
  function Dequeue(r: Replica, fork: nat, height: nat): Replica {
    r.(queue := map key <- r.queue | !(key.0 == fork && key.1 == height) :: r.queue[key])
  }
}
