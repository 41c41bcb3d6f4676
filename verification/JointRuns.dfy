/** The contract and one client together. The client sees the contract through its events, in any order
    and any number of times, and through the posted time it asks for while it validates a block. */
module JointRuns {
  import opened Types
  import opened Storage
  import DR = DisputeRuns
  import opened ReplicaRules
  import R = ReplicaRuns

  /** The contract, the client, and every SetState and BlockCalldataPosted event so far. */
  datatype World = World(
    chain: Chain, client: R.Tracked,
    stateEvents: seq<(Bytes, nat, nat)>, postEvents: seq<(SignedBlock, nat)>)

  datatype Move = OnChain(tx: DR.Tx) | Local(step: R.Step)

  /** A local step must be one the contract's events and answers allow. */
  predicate Allowed(w: World, step: R.Step) {
    match step
    case StateSet(state, forkCnt, timestamp) => (state, forkCnt, timestamp) in w.stateEvents
    case CalldataPosted(posted, timestamp) => (posted, timestamp) in w.postEvents
    case SignedBlockArrives(signed, _, chainTime) =>
      chainTime == w.chain.LatestPosted(signed.block.Fork(), signed.block.Height())
    case ConfirmationArrives(signed, _, _, chainTime) =>
      chainTime == w.chain.LatestPosted(signed.block.Fork(), signed.block.Height())
    case _ => true
  }

  function Next(c: Client, w: World, move: Move): World {
    match move
    case Local(step) => if Allowed(w, step) then w.(client := R.Track(c, w.client, step)) else w
    case OnChain(tx) =>
      var after := DR.Next(c.env, w.chain, tx);
      w.(chain := after,
         stateEvents := if after.latestFork != w.chain.latestFork
                        then w.stateEvents + [(after.StateOf(after.latestFork), after.latestFork, after.now)]
                        else w.stateEvents,
         postEvents := if tx.call.Post? && DR.Execute(c.env, w.chain, tx).Ok?
                          && tx.call.signed.block.ChannelOf() == w.chain.channelId
                       then w.postEvents + [(tx.call.signed, w.chain.now)] else w.postEvents)
  }

  function Run(c: Client, w: World, moves: seq<Move>): World {
    if moves == [] then w else Next(c, Run(c, w, moves[..|moves| - 1]), moves[|moves| - 1])
  }

  /** Right after openChannel, with a client that has seen nothing. */
  function Start(c: Client, now: nat, genesis: Bytes, machine: Bytes): World {
    World(DR.Opened(c.channelId, c.times, now, genesis), R.Run(c, machine, []), [(genesis, 0, now)], [])
  }

  /** The contract records a post at (height, author), at `time` or later. */
  ghost predicate Recorded(chain: Chain, fork: nat, height: nat, author: Address, time: nat) {
    (height, author) in chain.DataOf(fork).keys && chain.DataOf(fork).TimeOf((height, author)) >= time
  }

  ghost predicate ForkMirrors(chain: Chain, fork: nat, f: Fork) {
    && fork <= chain.latestFork
    && f.genesis == chain.StateOf(fork) && f.genesisTimestamp == chain.GenesisTime(fork)
    && forall posted <- f.chainBlocks ::
         Recorded(chain, fork, posted.transactionCnt, posted.participant, posted.timestamp)
  }

  ghost predicate EventsTrue(w: World) {
    && (forall e <- w.stateEvents ::
          e.1 <= w.chain.latestFork && e.0 == w.chain.StateOf(e.1) && e.2 == w.chain.GenesisTime(e.1))
    && (forall e <- w.postEvents :: Recorded(w.chain, e.0.block.Fork(), e.0.block.Height(), e.0.block.Author(), e.1))
  }

  /** What every joint run keeps: both halves, the client's signature on every block it holds, and the client's forks as
      a record of the contract's. */
  ghost predicate Invariant(c: Client, w: World) {
    && w.chain.channelId == c.channelId && w.chain.times == c.times
    && DR.Consistent(w.chain)
    && R.Invariant(c, w.client) && R.SignsAll(c, w.client.replica)
    && EventsTrue(w)
    && forall fork: nat :: fork < |w.client.replica.forks| ==> ForkMirrors(w.chain, fork, w.client.replica.forks[fork])
  }

  // ---------- preservation ----------

  lemma RecordedLater(chain: Chain, after: Chain, fork: nat, height: nat, author: Address, time: nat)
    requires DR.Extends(chain, after) && Recorded(chain, fork, height, author, time)
    ensures Recorded(after, fork, height, author, time)
  {}

  lemma ChainMoveKeeps(c: Client, w: World, tx: DR.Tx)
    requires Invariant(c, w)
    ensures Invariant(c, Next(c, w, OnChain(tx)))
  {
    var after := Next(c, w, OnChain(tx));
    DR.NextKeeps(c.env, w.chain, tx);
    forall e | e in after.stateEvents
      ensures e.1 <= after.chain.latestFork && e.0 == after.chain.StateOf(e.1) && e.2 == after.chain.GenesisTime(e.1)
    {}
    forall e | e in after.postEvents
      ensures Recorded(after.chain, e.0.block.Fork(), e.0.block.Height(), e.0.block.Author(), e.1)
    {
      if e in w.postEvents {
        RecordedLater(w.chain, after.chain, e.0.block.Fork(), e.0.block.Height(), e.0.block.Author(), e.1);
      } else {
        PostIsRecorded(c.env, w.chain, tx);
      }
    }
    forall fork: nat | fork < |w.client.replica.forks|
      ensures ForkMirrors(after.chain, fork, w.client.replica.forks[fork])
    {
      assert ForkMirrors(w.chain, fork, w.client.replica.forks[fork]);
      forall posted | posted in w.client.replica.forks[fork].chainBlocks
        ensures Recorded(after.chain, fork, posted.transactionCnt, posted.participant, posted.timestamp)
      {
        RecordedLater(w.chain, after.chain, fork, posted.transactionCnt, posted.participant, posted.timestamp);
      }
    }
  }

  lemma PostIsRecorded(env: Env, chain: Chain, tx: DR.Tx)
    requires tx.call.Post? && DR.Execute(env, chain, tx).Ok? && tx.call.signed.block.ChannelOf() == chain.channelId
    ensures var block := tx.call.signed.block;
            Recorded(DR.Next(env, chain, tx), block.Fork(), block.Height(), block.Author(), chain.now)
  {}

  /** Only setState adds a fork and only collectOnChainBlock adds a record. */
  lemma StepRecords(c: Client, r: Replica, step: R.Step, fork: nat)
    requires fork < |R.Next(c, r, step).forks|
    ensures var after := R.Next(c, r, step);
            && (fork < |r.forks| ==>
                  || after.forks[fork].chainBlocks == r.forks[fork].chainBlocks
                  || (step.CalldataPosted? && step.posted.block.Fork() == fork
                      && after.forks[fork].chainBlocks == r.forks[fork].chainBlocks
                           + [ChainBlock(step.posted.block.Height(), step.posted.block.Author(), step.timestamp)]))
            && (fork >= |r.forks| ==>
                  && step.StateSet? && step.forkCnt == fork
                  && after.forks[fork] == Fork(step.state, c.env.participants(step.state), step.timestamp, [], []))
  {
    match step
    case SignedBlockArrives(signed, clock, chainTime) =>
      SignedBlockRecords(c, r, signed, clock, chainTime);
    case ConfirmationArrives(signed, confirmation, clock, chainTime) =>
      SignedBlockRecords(c, r, signed, clock, chainTime);
      R.ConfirmationShape(c, r, signed, confirmation, clock, chainTime);
    case _ =>
  }

  lemma SignedBlockRecords(c: Client, r: Replica, signed: SignedBlock, clock: nat, chainTime: nat)
    ensures var after := OnSignedBlock(c, r, signed, clock, chainTime).replica;
            && |after.forks| == |r.forks|
            && forall fork :: 0 <= fork < |r.forks| ==> after.forks[fork].chainBlocks == r.forks[fork].chainBlocks
  {
    var v := ValidateSignedBlock(c, r, signed, clock, chainTime);
    R.ValidateShape(c, r, signed, clock, chainTime);
    R.DecideShape(c, v.replica, signed, v.verdict);
  }

  lemma StepMirrors(c: Client, w: World, step: R.Step, fork: nat)
    requires Invariant(c, w) && Allowed(w, step) && fork < |R.Next(c, w.client.replica, step).forks|
    ensures ForkMirrors(w.chain, fork, R.Next(c, w.client.replica, step).forks[fork])
  {
    var r, after := w.client.replica, R.Next(c, w.client.replica, step);
    R.StepGrows(c, r, step);
    StepRecords(c, r, step, fork);
    if fork < |r.forks| {
      assert ForkMirrors(w.chain, fork, r.forks[fork]) && R.ForkExtends(r.forks[fork], after.forks[fork]);
    }
  }

  lemma LocalMoveKeeps(c: Client, w: World, step: R.Step)
    requires c.OwnsSigner() && Invariant(c, w)
    ensures Invariant(c, Next(c, w, Local(step)))
  {
    if Allowed(w, step) {
      var r, after := w.client.replica, R.Next(c, w.client.replica, step);
      R.TrackKeeps(c, w.client, step);
      R.StepSigns(c, r, step);
      forall fork: nat | fork < |after.forks| ensures ForkMirrors(w.chain, fork, after.forks[fork]) {
        StepMirrors(c, w, step, fork);
      }
    }
  }

  lemma {:induction false} RunKeeps(c: Client, w: World, moves: seq<Move>)
    requires c.OwnsSigner() && Invariant(c, w)
    ensures Invariant(c, Run(c, w, moves))
  {
    if moves != [] {
      var last := |moves| - 1;
      RunKeeps(c, w, moves[..last]);
      match moves[last]
      case OnChain(tx) => ChainMoveKeeps(c, Run(c, w, moves[..last]), tx);
      case Local(step) => LocalMoveKeeps(c, Run(c, w, moves[..last]), step);
    }
  }

  lemma StartHolds(c: Client, now: nat, genesis: Bytes, machine: Bytes)
    requires c.channelId != 0
    ensures Invariant(c, Start(c, now, genesis, machine))
  {}

  /** A longer joint run only appends to what a shorter one recorded. */
  lemma {:induction false} RunGrows(c: Client, w: World, moves: seq<Move>, n: nat)
    requires n <= |moves|
    ensures R.Grows(Run(c, w, moves[..n]).client.replica, Run(c, w, moves).client.replica)
  {
    if n == |moves| {
      assert moves[..n] == moves;
    } else {
      var last := |moves| - 1;
      var before := Run(c, w, moves[..last]);
      RunGrows(c, w, moves[..last], n);
      assert moves[..last][..n] == moves[..n];
      if moves[last].Local? && Allowed(before, moves[last].step) {
        R.StepGrows(c, before.client.replica, moves[last].step);
        R.GrowsTransitive(Run(c, w, moves[..n]).client.replica, before.client.replica, Run(c, w, moves).client.replica);
      }
    }
  }

  // ---------- the events are complete ----------

  /** Every fork of the contract has its SetState event. */
  ghost predicate Published(w: World) {
    forall fork: nat :: fork <= w.chain.latestFork ==>
      (w.chain.StateOf(fork), fork, w.chain.GenesisTime(fork)) in w.stateEvents
  }

  lemma NextPublishes(c: Client, w: World, move: Move)
    requires DR.Consistent(w.chain) && Published(w)
    ensures Published(Next(c, w, move))
    ensures w.stateEvents <= Next(c, w, move).stateEvents && w.postEvents <= Next(c, w, move).postEvents
  {
    if move.OnChain? {
      DR.NextKeeps(c.env, w.chain, move.tx);
      NewForkIsPublished(w, Next(c, w, move));
    }
  }

  lemma NewForkIsPublished(w: World, after: World)
    requires DR.Consistent(w.chain) && Published(w) && DR.Extends(w.chain, after.chain)
    requires after.chain.latestFork == w.chain.latestFork || DR.OpensFork(w.chain, after.chain)
    requires after.stateEvents ==
             if after.chain.latestFork == w.chain.latestFork then w.stateEvents
             else w.stateEvents + [(after.chain.StateOf(after.chain.latestFork), after.chain.latestFork,
                                    after.chain.now)]
    ensures Published(after)
  {
    forall fork: nat | fork <= after.chain.latestFork
      ensures (after.chain.StateOf(fork), fork, after.chain.GenesisTime(fork)) in after.stateEvents
    {
      if fork <= w.chain.latestFork {
        assert (w.chain.StateOf(fork), fork, w.chain.GenesisTime(fork)) in w.stateEvents;
      } else {
        assert after.stateEvents[|w.stateEvents|] in after.stateEvents;
      }
    }
  }

  /** On every joint run each fork that the contract ever set has its event, with its state and its time. */
  lemma {:induction false} EverythingIsPublished(c: Client, now: nat, genesis: Bytes, machine: Bytes, moves: seq<Move>)
    requires c.channelId != 0 && c.OwnsSigner()
    ensures Published(Run(c, Start(c, now, genesis, machine), moves))
  {
    StartHolds(c, now, genesis, machine);
    if moves != [] {
      var front := moves[..|moves| - 1];
      EverythingIsPublished(c, now, genesis, machine, front);
      RunKeeps(c, Start(c, now, genesis, machine), front);
      NextPublishes(c, Run(c, Start(c, now, genesis, machine), front), moves[|moves| - 1]);
    }
  }

  lemma PostIsPublished(c: Client, w: World, sender: Address, signed: SignedBlock)
    requires DR.Execute(c.env, w.chain, DR.Tx(sender, DR.Post(signed))).Ok?
    requires signed.block.transaction.header.channelId == w.chain.channelId
    ensures (signed, w.chain.now) in Next(c, w, OnChain(DR.Tx(sender, DR.Post(signed)))).postEvents
  {}
}
