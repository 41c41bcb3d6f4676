/** What the client concludes is what the contract concludes: timestamps, blocks and certificates. */
module JointTheorems {
  import opened Types
  import opened Storage
  import D = DisputeRules
  import DR = DisputeRuns
  import opened ReplicaRules
  import R = ReplicaRuns
  import opened JointRuns
  import C = Certificates

  // ---------- the two timestamp queries ----------

  lemma {:induction false} ChainLatestIsMaximum(data: ForkData, maxHeight: nat, n: nat)
    requires n <= |data.keys|
    ensures forall i :: 0 <= i < n && data.keys[i].0 <= maxHeight ==>
              data.TimeOf(data.keys[i]) <= data.Latest(maxHeight, n)
    ensures data.Latest(maxHeight, n) == 0 ||
            exists i :: 0 <= i < n && data.keys[i].0 <= maxHeight
                        && data.TimeOf(data.keys[i]) == data.Latest(maxHeight, n)
  {
    if n > 0 { ChainLatestIsMaximum(data, maxHeight, n - 1); }
  }

  lemma {:induction false} ClientLatestIsMaximum(f: Fork, maxHeight: nat, n: nat)
    requires n <= |f.chainBlocks|
    ensures forall i :: 0 <= i < n && f.chainBlocks[i].transactionCnt <= maxHeight ==>
              f.chainBlocks[i].timestamp <= f.LatestPosted(maxHeight, n)
    ensures f.LatestPosted(maxHeight, n) == 0 ||
            exists i :: 0 <= i < n && f.chainBlocks[i].transactionCnt <= maxHeight
                        && f.chainBlocks[i].timestamp == f.LatestPosted(maxHeight, n)
  {
    if n > 0 { ClientLatestIsMaximum(f, maxHeight, n - 1); }
  }

  /** The latest posted time of a fork never decreases over a run of the contract. */
  lemma PostedTimeGrows(env: Env, chain: Chain, txs: seq<DR.Tx>, fork: nat, maxHeight: nat)
    requires DR.Consistent(chain)
    ensures chain.LatestPosted(fork, maxHeight) <= DR.Run(env, chain, txs).LatestPosted(fork, maxHeight)
  {
    var later := DR.Run(env, chain, txs);
    DR.RunKeeps(env, chain, txs);
    var data, after := chain.DataOf(fork), later.DataOf(fork);
    assert DR.DataExtends(data, after);
    ChainLatestIsMaximum(data, maxHeight, |data.keys|);
    ChainLatestIsMaximum(after, maxHeight, |after.keys|);
    if data.Latest(maxHeight, |data.keys|) != 0 {
      var i :| 0 <= i < |data.keys| && data.keys[i].0 <= maxHeight
               && data.TimeOf(data.keys[i]) == data.Latest(maxHeight, |data.keys|);
      assert after.keys[i] == data.keys[i];
    }
  }

  /** The client never records a later posted time than the contract's. */
  lemma RecordIsBehindChain(c: Client, w: World, fork: nat, maxHeight: nat)
    requires Invariant(c, w) && fork < |w.client.replica.forks|
    ensures w.client.replica.forks[fork].LatestPostedTimestamp(maxHeight) <= w.chain.LatestPosted(fork, maxHeight)
  {
    var f, data := w.client.replica.forks[fork], w.chain.DataOf(fork);
    assert ForkMirrors(w.chain, fork, f);
    ClientLatestIsMaximum(f, maxHeight, |f.chainBlocks|);
    ChainLatestIsMaximum(data, maxHeight, |data.keys|);
    if f.LatestPosted(maxHeight, |f.chainBlocks|) != 0 {
      var i :| 0 <= i < |f.chainBlocks| && f.chainBlocks[i].transactionCnt <= maxHeight
               && f.chainBlocks[i].timestamp == f.LatestPosted(maxHeight, |f.chainBlocks|);
      var posted := f.chainBlocks[i];
      assert posted in f.chainBlocks;
      assert Recorded(w.chain, fork, posted.transactionCnt, posted.participant, posted.timestamp);
      var j :| 0 <= j < |data.keys| && data.keys[j] == (posted.transactionCnt, posted.participant);
    }
  }

  // ---------- timestamp verdicts ----------

  /** The local fast path never changes the verdict: asking the contract every time would give the same. */
  lemma FastPathAgrees(c: Client, w: World, block: Block)
    requires Invariant(c, w) && block.Fork() < |w.client.replica.forks|
    ensures var f := w.client.replica.forks[block.Fork()];
            var posted := w.chain.LatestPosted(block.Fork(), block.Height());
            var reference := if posted > f.LatestBlockTimestamp() then posted else f.LatestBlockTimestamp();
            GoodTimestamp(c, f, block, posted) <==> block.Timestamp() <= reference + c.times.p2p
  {
    RecordIsBehindChain(c, w, block.Fork(), block.Height());
  }

  /** The latest time a block may carry is counted from here. */
  function TimeReference(chain: Chain, previous: nat, block: Block): nat {
    var posted := chain.LatestPosted(block.Fork(), block.Height());
    if posted > previous then posted else previous
  }

  predicate Overflows(chain: Chain, previous: nat, block: Block) {
    TimeReference(chain, previous, block) + chain.times.p2p > UINT_MAX
  }

  predicate Late(chain: Chain, previous: nat, block: Block) {
    !Overflows(chain, previous, block) && block.Timestamp() > TimeReference(chain, previous, block) + chain.times.p2p
  }

  /** The contract's window for a block that is not older than its predecessor. */
  lemma TimeVerdict(chain: Chain, previous: nat, block: Block)
    requires block.Timestamp() >= previous
    ensures D.GoodTimestamp(chain, previous, block)
         == if Overflows(chain, previous, block) then Revert else Ok(!Late(chain, previous, block))
  {}

  /** A timestamp the client finds good on the contract's answer is good for the contract then and at every
      later time; the only other outcome is the revert of an addition beyond 2^256. */
  lemma GoodTimestampForever(c: Client, w: World, block: Block, txs: seq<DR.Tx>)
    requires Invariant(c, w) && block.Fork() < |w.client.replica.forks|
    requires block.Timestamp() >= w.client.replica.forks[block.Fork()].LatestBlockTimestamp()
    requires GoodTimestamp(c, w.client.replica.forks[block.Fork()], block,
                           w.chain.LatestPosted(block.Fork(), block.Height()))
    ensures var previous := w.client.replica.forks[block.Fork()].LatestBlockTimestamp();
            var later := DR.Run(c.env, w.chain, txs);
            D.GoodTimestamp(later, previous, block) == if Overflows(later, previous, block) then Revert else Ok(true)
  {
    FastPathAgrees(c, w, block);
    PostedTimeGrows(c.env, w.chain, txs, block.Fork(), block.Height());
    DR.RunKeeps(c.env, w.chain, txs);
  }

  // ---------- accepted blocks are immune ----------

  /** The evidence says that `block2`, played on `preState` right after `block1`, is incorrect. */
  ghost predicate TruePredecessor(f: Fork, block1: SignedBlock, block2: SignedBlock, preState: Bytes) {
    && preState == f.LastState()
    && |f.agreements| == block2.block.Height()
    && (f.agreements != [] ==> block1.block == f.agreements[|f.agreements| - 1].block)
  }

  /** When an honest block can still be slashed: it is not the first of its fork, its pre-state has the hash of
      the genesis state, and it is late counted from the genesis time instead of its predecessor's. */
  predicate MistakenForGenesis(env: Env, chain: Chain, block2: Block, preState: Bytes) {
    && block2.Height() > 0
    && chain.IsGenesisState(env, block2.Fork(), preState)
    && Late(chain, chain.GenesisTime(block2.Fork()), block2)
  }

  /** What an accepted block has passed. */
  lemma ValidatedFacts(c: Client, r: Replica, signed: SignedBlock, clock: nat, chainTime: nat)
    requires ValidateSignedBlock(c, r, signed, clock, chainTime).verdict == Success
    ensures var block := signed.block;
            && c.env.Signer(block, signed.signature) == Some(block.Author()) && block.ChannelOf() == c.channelId
            && r.forks != [] && block.Fork() == r.LatestFork() && block.Height() == r.NextHeight()
            && block.Timestamp() >= r.forks[r.LatestFork()].LatestBlockTimestamp()
            && GoodTimestamp(c, r.forks[r.LatestFork()], block, chainTime)
            && c.env.step(r.machine, block.transaction).Some?
            && c.env.keccak(c.env.step(r.machine, block.transaction).value) == block.stateHash
            && c.env.keccak(r.machine) == block.previousStateHash
  {}

  /** The time the contract counts from: the genesis time as soon as the pre-state has the genesis hash. */
  function JudgedFrom(env: Env, chain: Chain, fork: nat, preState: Bytes, previous: nat): nat {
    if chain.IsGenesisState(env, fork, preState) then chain.GenesisTime(fork) else previous
  }

  /** The contract's judgement of a block that links to its pre-state, runs, and reaches its state hash. */
  lemma CorrectBlockVerdict(env: Env, chain: Chain, d: Dispute, block1: SignedBlock, block2: SignedBlock,
                            preState: Bytes)
    requires env.Signer(block1.block, block1.signature) == Some(block1.block.Author())
    requires env.Signer(block2.block, block2.signature) == Some(block2.block.Author())
    requires D.OnDispute(d, block1.block) && D.OnDispute(d, block2.block)
    requires block2.block.previousStateHash == env.keccak(preState)
    requires env.step(preState, block2.block.transaction).Some?
    requires env.keccak(env.step(preState, block2.block.transaction).value) == block2.block.stateHash
    requires !chain.IsGenesisState(env, d.forkCnt, preState) ==> block1.block.stateHash == env.keccak(preState)
    ensures var previous := JudgedFrom(env, chain, d.forkCnt, preState, block1.block.Timestamp());
            D.ApplyIncorrectData(env, chain, d, block1, block2, preState) ==
            match D.GoodTimestamp(chain, previous, block2.block)
            case Revert => Revert
            case Ok(inTime) => Ok(if inTime then D.Applied(d, false)
                                  else D.Punish(d, block2.block.Author(), block1.block.Height()))
  {}

  /** What the client's invariant says of the predecessor of the next block. */
  lemma PredecessorFacts(c: Client, w: World, block1: SignedBlock, block2: SignedBlock)
    requires Invariant(c, w) && w.client.replica.forks != [] && w.client.replica.LatestFork() !in w.client.derailed
    requires TruePredecessor(w.client.replica.forks[w.client.replica.LatestFork()], block1, block2,
                             w.client.replica.machine)
    ensures var r := w.client.replica;
            var f := r.forks[r.LatestFork()];
            && (f.agreements == [] ==> r.machine == f.genesis && f.LatestBlockTimestamp() == f.genesisTimestamp)
            && (f.agreements != [] ==>
                  block1.block.stateHash == c.env.keccak(r.machine)
                  && block1.block.Timestamp() == f.LatestBlockTimestamp())
            && w.chain.StateOf(r.LatestFork()) == f.genesis && w.chain.GenesisTime(r.LatestFork()) == f.genesisTimestamp
            && r.LatestFork() <= w.chain.latestFork
  {
    var r := w.client.replica;
    var f := r.forks[r.LatestFork()];
    assert R.ForkSound(c, f, r.LatestFork(), w.client.Sound(r.LatestFork())) && ForkMirrors(w.chain, r.LatestFork(), f);
    if f.agreements != [] { assert R.Executed(c.env, f, |f.agreements| - 1); }
  }

  /** The time verdict at any later time on a block that was in time for the client. */
  lemma LaterVerdict(c: Client, w: World, block: Block, txs: seq<DR.Tx>)
    requires Invariant(c, w) && w.client.replica.forks != [] && w.client.replica.LatestFork() !in w.client.derailed
    requires block.Fork() == w.client.replica.LatestFork() && block.Height() == w.client.replica.NextHeight()
    requires var f := w.client.replica.forks[block.Fork()];
             && block.Timestamp() >= f.LatestBlockTimestamp()
             && GoodTimestamp(c, f, block, w.chain.LatestPosted(block.Fork(), block.Height()))
    ensures var chain, r := DR.Run(c.env, w.chain, txs), w.client.replica;
            var previous := JudgedFrom(c.env, chain, block.Fork(), r.machine,
                                       r.forks[block.Fork()].LatestBlockTimestamp());
            D.GoodTimestamp(chain, previous, block) ==
            if Overflows(chain, previous, block) then Revert
            else Ok(!MistakenForGenesis(c.env, chain, block, r.machine))
  {
    var chain, r, fork := DR.Run(c.env, w.chain, txs), w.client.replica, block.Fork();
    GoodTimestampForever(c, w, block, txs);
    GenesisIsKept(c, w, txs, fork);
    TimeVerdict(chain, JudgedFrom(c.env, chain, fork, r.machine, r.forks[fork].LatestBlockTimestamp()), block);
  }

  /** The client's fork keeps the genesis time that the contract has for it at any later time. */
  lemma GenesisIsKept(c: Client, w: World, txs: seq<DR.Tx>, fork: nat)
    requires Invariant(c, w) && fork < |w.client.replica.forks|
    ensures var f, chain := w.client.replica.forks[fork], DR.Run(c.env, w.chain, txs);
            && chain.GenesisTime(fork) == f.genesisTimestamp <= f.LatestBlockTimestamp()
            && chain.StateOf(fork) == f.genesis && chain.channelId == c.channelId && chain.times == c.times
            && (f.agreements == [] ==> f.LatestBlockTimestamp() == f.genesisTimestamp)
  {
    DR.RunKeeps(c.env, w.chain, txs);
    assert ForkMirrors(w.chain, fork, w.client.replica.forks[fork]);
  }

  /** An accepted block, its predecessor and its pre-state, judged at any later time: the evidence reverts or
      changes nothing, unless the pre-state is mistaken for genesis; and then the author is slashed. */
  lemma AcceptedBlocksAreImmune(c: Client, w: World, signed: SignedBlock, clock: nat, txs: seq<DR.Tx>,
                                d: Dispute, block1: SignedBlock)
    requires Invariant(c, w) && w.client.replica.forks != [] && w.client.replica.LatestFork() !in w.client.derailed
    requires ValidateSignedBlock(c, w.client.replica, signed, clock,
                                 w.chain.LatestPosted(signed.block.Fork(), signed.block.Height())).verdict == Success
    requires TruePredecessor(w.client.replica.forks[w.client.replica.LatestFork()], block1, signed,
                             w.client.replica.machine)
    requires d.channelId == c.channelId && d.forkCnt == signed.block.Fork()
    requires c.env.Signer(block1.block, block1.signature) == Some(block1.block.Author()) && D.OnDispute(d, block1.block)
    ensures var chain := DR.Run(c.env, w.chain, txs);
            var applied := D.ApplyIncorrectData(c.env, chain, d, block1, signed, w.client.replica.machine);
            if MistakenForGenesis(c.env, chain, signed.block, w.client.replica.machine)
            then applied.Ok? && signed.block.Author() in applied.value.dispute.slashed
            else applied == Revert || applied == Ok(D.Applied(d, false))
  {
    var r, chain := w.client.replica, DR.Run(c.env, w.chain, txs);
    ValidatedFacts(c, r, signed, clock, w.chain.LatestPosted(signed.block.Fork(), signed.block.Height()));
    LinkedBlockVerdict(c, w, signed, txs, d, block1);
    LaterVerdict(c, w, signed.block, txs);
  }

  /** The contract's verdict, at any later time, on a block that the client's machine runs to its state hash. */
  lemma LinkedBlockVerdict(c: Client, w: World, signed: SignedBlock, txs: seq<DR.Tx>, d: Dispute, block1: SignedBlock)
    requires Invariant(c, w) && w.client.replica.forks != [] && w.client.replica.LatestFork() !in w.client.derailed
    requires TruePredecessor(w.client.replica.forks[w.client.replica.LatestFork()], block1, signed,
                             w.client.replica.machine)
    requires signed.block.Fork() == w.client.replica.LatestFork() && d.forkCnt == signed.block.Fork()
    requires d.channelId == c.channelId == signed.block.ChannelOf()
    requires c.env.Signer(block1.block, block1.signature) == Some(block1.block.Author()) && D.OnDispute(d, block1.block)
    requires c.env.Signer(signed.block, signed.signature) == Some(signed.block.Author())
    requires var state, block := w.client.replica.machine, signed.block;
             && c.env.keccak(state) == block.previousStateHash
             && c.env.step(state, block.transaction).Some?
             && c.env.keccak(c.env.step(state, block.transaction).value) == block.stateHash
    ensures var chain, r := DR.Run(c.env, w.chain, txs), w.client.replica;
            var previous := JudgedFrom(c.env, chain, d.forkCnt, r.machine,
                                       r.forks[r.LatestFork()].LatestBlockTimestamp());
            D.ApplyIncorrectData(c.env, chain, d, block1, signed, r.machine) ==
            match D.GoodTimestamp(chain, previous, signed.block)
            case Revert => Revert
            case Ok(inTime) => Ok(if inTime then D.Applied(d, false)
                                  else D.Punish(d, signed.block.Author(), block1.block.Height()))
  {
    PredecessorFacts(c, w, block1, signed);
    GenesisIsKept(c, w, txs, signed.block.Fork());
    CorrectBlockVerdict(c.env, DR.Run(c.env, w.chain, txs), d, block1, signed, w.client.replica.machine);
  }

  // ---------- certificates ----------

  /** On any joint run, for any fork of the client and any signer whose latest signed block precedes the fork's
      first failed execution, this is the contract's verdict on the client's certificate. */
  lemma CertificateVerdict(c: Client, w: World, fork: nat, p: Address)
    requires Invariant(c, w) && fork < |w.client.replica.forks|
    requires var agreements := w.client.replica.forks[fork].agreements;
             C.LatestSigned(c.env, agreements, p, |agreements|) < w.client.Sound(fork)
    ensures var f := w.client.replica.forks[fork];
            var best := C.BestCertificate(c.env, f, p);
            D.FinalizedAndLatest(c.env, w.chain, fork, best.finalized, best.latest, best.votes,
                                 c.env.participants(w.chain.StateOf(fork))) ==
            if C.LooksLikeGenesis(c.env, f, p) then Revert else Ok(C.OnGenesis(c.env, f, p) || Distinct(f.threshold))
  {
    var f := w.client.replica.forks[fork];
    assert R.ForkSound(c, f, fork, w.client.Sound(fork)) && ForkMirrors(w.chain, fork, f);
    C.ForkCertificate(c, w.chain, f, fork, w.client.Sound(fork), p);
  }

  /** Once recorded as sound, an agreement stays sound. */
  lemma {:induction false} SoundGrows(c: Client, w: World, moves: seq<Move>, fork: nat)
    requires fork < |w.client.replica.forks|
    ensures fork < |Run(c, w, moves).client.replica.forks|
    ensures w.client.Sound(fork) <= Run(c, w, moves).client.Sound(fork)
  {
    if moves != [] {
      var before, move := Run(c, w, moves[..|moves| - 1]), moves[|moves| - 1];
      SoundGrows(c, w, moves[..|moves| - 1], fork);
      if move.Local? && Allowed(before, move.step) {
        R.StepGrows(c, before.client.replica, move.step);
        assert R.ForkExtends(before.client.replica.forks[fork],
                             R.Next(c, before.client.replica, move.step).forks[fork]);
      }
    }
  }
}
