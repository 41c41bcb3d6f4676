/** Timeouts: when a client claims one, and when the contract accepts the claim. */
module Timeouts {
  import opened Types
  import opened Storage
  import D = DisputeRules
  import opened ReplicaRules
  import R = ReplicaRuns
  import opened JointRuns
  import C = Certificates
  import P = ProofManager
  import CV = ClientVerdicts

  datatype TimeoutDecision = Skip | Later(delay: nat) | Now

  /** StateManager.tryTimeoutParticipant, with the contract's answer to getBlockCallData. A call that does not
      skip disputes unconditionally: at once, or when the delay is over. */
  function TryTimeout(c: Client, r: Replica, fork: nat, height: nat, participant: Address, clock: nat, posted: bool)
    : TimeoutDecision
  {
    if participant == c.me || fork >= |r.forks| then Skip
    else
      var f := r.forks[fork];
      if r.Known(fork, height) && DidEveryoneSign(c.env, r, r.AgreementAt(fork, height).block) then Skip
      else if f.HasPosted(height, participant) then Skip
      else if clock < f.LatestPostedTimestamp(height) + c.times.TimeoutWait() then Skip
      else if posted then Skip
      else
        var delay := c.times.TimeoutWait() - (clock - f.LatestBlockTimestamp());
        if delay < 0 then Now else Later(delay)
  }

  // ---------- when a check claims a timeout ----------

  /** The client holds a block at the height, and every address of the threshold has signed it. */
  predicate SignedByEveryone(c: Client, r: Replica, fork: nat, height: nat) {
    && fork < |r.forks| && height < |r.forks[fork].agreements|
    && var a, threshold := r.forks[fork].agreements[height], r.forks[fork].threshold;
       forall k :: 0 <= k < |threshold| ==> HasSigned(c, a, threshold[k])
  }

  predicate HasSigned(c: Client, a: Agreement, participant: Address) {
    exists i :: 0 <= i < |a.signatures|
                && c.env.recover(c.env.blockHash(a.block), a.signatures[i]) == Some(participant)
  }

  /** The client knows of a post by the participant at the height. */
  predicate PostIsKnown(f: Fork, height: nat, participant: Address) {
    exists i :: 0 <= i < |f.chainBlocks|
                && f.chainBlocks[i].transactionCnt == height && f.chainBlocks[i].participant == participant
  }

  lemma EveryoneIs(c: Client, t: R.Tracked, fork: nat, height: nat)
    requires R.Invariant(c, t)
    ensures SignedByEveryone(c, t.replica, fork, height) <==>
            t.replica.Known(fork, height)
            && DidEveryoneSign(c.env, t.replica, t.replica.AgreementAt(fork, height).block)
  {
    if t.replica.Known(fork, height) {
      var a, threshold := t.replica.AgreementAt(fork, height), t.replica.forks[fork].threshold;
      assert R.ForkSound(c, t.replica.forks[fork], fork, t.Sound(fork)) && R.Authenticated(c, fork, height, a);
      forall p ensures c.env.Signs(a.block, a.signatures, p) <==> HasSigned(c, a, p) {
        CV.SignsIs(c.env, a.block, a.signatures, p);
      }
      assert (forall p <- threshold :: c.env.Signs(a.block, a.signatures, p)) <==>
             (forall k :: 0 <= k < |threshold| ==> HasSigned(c, a, threshold[k]));
    }
  }

  lemma PostedIs(f: Fork, height: nat, participant: Address)
    ensures f.HasPosted(height, participant) <==> PostIsKnown(f, height, participant)
  {
    if f.HasPosted(height, participant) {
      var posted :| posted in f.chainBlocks && posted.transactionCnt == height && posted.participant == participant;
      var i :| 0 <= i < |f.chainBlocks| && f.chainBlocks[i] == posted;
    }
  }

  /** The answer of a check, in any state that a run can reach. It skips for the client itself, an unknown fork, a block
      that everyone signed, a known or found post, and before the wait is over since the latest known post. Otherwise it
      disputes at once when the wait is over since the last block, and else after what is left of that wait. */
  lemma CheckAnswer(c: Client, t: R.Tracked, fork: nat, height: nat, participant: Address, clock: nat, posted: bool)
    requires R.Invariant(c, t)
    ensures TryTimeout(c, t.replica, fork, height, participant, clock, posted) ==
            if participant == c.me || fork >= |t.replica.forks| || SignedByEveryone(c, t.replica, fork, height)
               || posted
            then Skip
            else
              var f, wait := t.replica.forks[fork], c.times.p2p + c.times.agreement + c.times.chainFallback;
              var due := CV.LastTime(f) + wait;
              if PostIsKnown(f, height, participant) || clock < f.LatestPostedTimestamp(height) + wait then Skip
              else if clock > due then Now
              else Later(due - clock)
  {
    EveryoneIs(c, t, fork, height);
    if fork < |t.replica.forks| { PostedIs(t.replica.forks[fork], height, participant); }
  }

  /** The client can undo a timeout exactly when it holds a block there that everyone signed, and it does so with that
      block. */
  lemma RechallengeExists(c: Client, t: R.Tracked, fork: nat, height: nat)
    requires R.Invariant(c, t)
    ensures P.CreateFoldRechallengeProof(c.env, t.replica, fork, height) ==
            if SignedByEveryone(c, t.replica, fork, height)
            then Some(D.FoldRechallenge(t.replica.forks[fork].agreements[height].block,
                                        t.replica.forks[fork].agreements[height].signatures))
            else None
  {
    EveryoneIs(c, t, fork, height);
  }

  /** A check that does not skip claims a timeout that the client itself could not undo. */
  lemma ClaimIsHonest(c: Client, t: R.Tracked, fork: nat, height: nat, participant: Address, clock: nat, posted: bool)
    requires R.Invariant(c, t) && TryTimeout(c, t.replica, fork, height, participant, clock, posted) != Skip
    ensures P.CreateFoldRechallengeProof(c.env, t.replica, fork, height) == None
  {
    CheckAnswer(c, t, fork, height, participant, clock, posted);
    RechallengeExists(c, t, fork, height);
  }

  // ---------- the contract's side ----------

  /** The wait for a block is over, counted from the block before it and from what was posted since. */
  predicate Elapsed(chain: Chain, fork: nat, height: nat, previous: nat) {
    var posted := chain.LatestPosted(fork, height);
    var reference := if posted > previous then posted else previous;
    reference + chain.times.TimeoutWait() <= UINT_MAX && chain.now >= reference + chain.times.TimeoutWait()
  }

  /** All the contract asks of a timeout that `me` claims on its best certificate, in the client's terms: above height 0
      no block may be recorded at the height, it is the participant's turn in the last state, nothing was posted, and
      the wait is over. */
  predicate ClaimHolds(env: Env, chain: Chain, f: Fork, me: Address, fork: nat, participant: Address, height: nat) {
    && (height > 0 ==> |f.agreements| == height)
    && participant == env.nextToWrite(f.LastState())
    && !chain.CalldataFound(fork, height, participant)
    && Elapsed(chain, fork, height, if height > 0 then f.LatestBlockTimestamp() else f.genesisTimestamp)
    && participant != me
  }

  /** What a client's invariant says of one of its forks. */
  ghost predicate InOrder(c: Client, chain: Chain, f: Fork, fork: nat) {
    && f.genesisTimestamp == chain.GenesisTime(fork) && chain.times == c.times
    && R.Timely(f)
    && (forall i :: 0 <= i < |f.agreements| ==> f.agreements[i].block.Height() == i)
    && C.LatestSigned(c.env, f.agreements, c.me, |f.agreements|) == |f.agreements| - 1
  }

  lemma ForkIsInOrder(c: Client, w: World, fork: nat)
    requires Invariant(c, w) && fork < |w.client.replica.forks|
    ensures InOrder(c, w.chain, w.client.replica.forks[fork], fork)
  {
    var r, f := w.client.replica, w.client.replica.forks[fork];
    assert R.ForkSound(c, f, fork, w.client.Sound(fork)) && ForkMirrors(w.chain, fork, f);
    forall i | 0 <= i < |f.agreements| ensures f.agreements[i].block.Height() == i {
      assert R.Authenticated(c, fork, i, f.agreements[i]);
    }
    if f.agreements != [] {
      assert R.SignsAt(c, r, fork, |f.agreements| - 1);
      assert C.SignedBy(c.env, f.agreements[|f.agreements| - 1], c.me);
    }
  }

  lemma LastTimestamp(f: Fork)
    requires R.Timely(f)
    ensures f.genesisTimestamp <= f.LatestBlockTimestamp()
    ensures f.LatestBlockTimestamp()
         == if f.agreements == [] then f.genesisTimestamp else f.agreements[|f.agreements| - 1].block.Timestamp()
  {}

  lemma ForkTimeoutVerdict(c: Client, chain: Chain, f: Fork, fork: nat, participant: Address, height: nat)
    requires InOrder(c, chain, f, fork) && participant != ZERO_ADDRESS
    ensures var best := C.BestCertificate(c.env, f, c.me);
            D.TimeoutAccepted(c.env, chain, c.me, fork, best.latest, best.votes, participant, height)
            <==> ClaimHolds(c.env, chain, f, c.me, fork, participant, height)
  {
    C.LastVote(c.env, f, c.me);
    LastTimestamp(f);
  }

  /** On any joint run the contract accepts a claimed timeout exactly when the claim holds for the client. */
  lemma TimeoutVerdict(c: Client, w: World, fork: nat, participant: Address, height: nat)
    requires Invariant(c, w) && fork < |w.client.replica.forks| && participant != ZERO_ADDRESS
    ensures var f := w.client.replica.forks[fork];
            var best := C.BestCertificate(c.env, f, c.me);
            D.TimeoutAccepted(c.env, w.chain, c.me, fork, best.latest, best.votes, participant, height)
            <==> ClaimHolds(c.env, w.chain, f, c.me, fork, participant, height)
  {
    ForkIsInOrder(c, w, fork);
    ForkTimeoutVerdict(c, w.chain, w.client.replica.forks[fork], fork, participant, height);
  }

  // ---------- a check that disputes at once ----------

  /** What is assumed of the world in which a timeout fires: the client's clock is not ahead of the chain's, and its
      record of posted blocks is current. */
  ghost predicate ReadyToTimeout(c: Client, w: World, fork: nat, height: nat, participant: Address, clock: nat) {
    var r := w.client.replica;
    && fork < |r.forks| && !r.Known(fork, height) && participant != ZERO_ADDRESS
    && TryTimeout(c, r, fork, height, participant, clock, w.chain.CalldataFound(fork, height, participant)) == Now
    && clock <= w.chain.now <= UINT_MAX
    && r.forks[fork].LatestPostedTimestamp(height) == w.chain.LatestPosted(fork, height)
  }

  /** Between scheduling and firing: if no block was recorded at the scheduled height, the fork's chain is
      still the one whose last state was the machine's. */
  lemma NothingHappened(c: Client, w: World, moves: seq<Move>, fork: nat, height: nat)
    requires c.OwnsSigner() && Invariant(c, w)
    requires w.client.replica.forks != [] && fork == w.client.replica.LatestFork() && fork !in w.client.derailed
    requires height == w.client.replica.NextHeight()
    requires !Run(c, w, moves).client.replica.Known(fork, height)
    ensures var f := Run(c, w, moves).client.replica.forks;
            && fork < |f| && |f[fork].agreements| == height && f[fork].LastState() == w.client.replica.machine
  {
    var later := Run(c, w, moves).client.replica;
    RunGrows(c, w, moves, 0);
    var f, g := w.client.replica.forks[fork], later.forks[fork];
    assert R.ForkExtends(f, g);
    if height > 0 { assert R.AgreementExtends(f.agreements[height - 1], g.agreements[height - 1]); }
  }

  lemma FiredTimeout(c: Client, r: Replica, fork: nat, participant: Address, clock: nat, posted: bool)
    requires fork < |r.forks|
    requires TryTimeout(c, r, fork, |r.forks[fork].agreements|, participant, clock, posted) == Now
    ensures var f, wait := r.forks[fork], c.times.TimeoutWait();
            && participant != c.me && !posted
            && clock >= f.LatestPostedTimestamp(|f.agreements|) + wait && clock >= f.LatestBlockTimestamp() + wait
  {}

  lemma ReadyClaim(c: Client, chain: Chain, f: Fork, fork: nat, participant: Address, clock: nat)
    requires InOrder(c, chain, f, fork) && participant != c.me && participant == c.env.nextToWrite(f.LastState())
    requires !chain.CalldataFound(fork, |f.agreements|, participant) && clock <= chain.now <= UINT_MAX
    requires clock >= chain.LatestPosted(fork, |f.agreements|) + c.times.TimeoutWait()
    requires clock >= f.LatestBlockTimestamp() + c.times.TimeoutWait()
    ensures ClaimHolds(c.env, chain, f, c.me, fork, participant, |f.agreements|)
  {
    LastTimestamp(f);
  }

  lemma ReadyIsAccepted(c: Client, w: World, fork: nat, participant: Address, clock: nat)
    requires Invariant(c, w) && fork < |w.client.replica.forks|
    requires participant == c.env.nextToWrite(w.client.replica.forks[fork].LastState())
    requires ReadyToTimeout(c, w, fork, |w.client.replica.forks[fork].agreements|, participant, clock)
    ensures var f := w.client.replica.forks[fork];
            var best := C.BestCertificate(c.env, f, c.me);
            D.TimeoutAccepted(c.env, w.chain, c.me, fork, best.latest, best.votes, participant, |f.agreements|)
  {
    var f := w.client.replica.forks[fork];
    FiredTimeout(c, w.client.replica, fork, participant, clock,
                 w.chain.CalldataFound(fork, |f.agreements|, participant));
    ForkIsInOrder(c, w, fork);
    ReadyClaim(c, w.chain, f, fork, participant, clock);
    ForkTimeoutVerdict(c, w.chain, f, fork, participant, |f.agreements|);
  }

  /** Timeout acceptance, on any joint run: a timeout check scheduled for the participant whose turn it is
      and fired immediately, with no block at that height, passes every timeout check of createDispute. */
  lemma TimeoutIsAccepted(c: Client, w: World, moves: seq<Move>, fork: nat, height: nat, participant: Address,
                          clock: nat)
    requires c.OwnsSigner() && Invariant(c, w)
    requires w.client.replica.forks != [] && fork == w.client.replica.LatestFork() && fork !in w.client.derailed
    requires height == w.client.replica.NextHeight() && participant == c.env.nextToWrite(w.client.replica.machine)
    requires ReadyToTimeout(c, Run(c, w, moves), fork, height, participant, clock)
    ensures var later := Run(c, w, moves);
            var best := C.BestCertificate(c.env, later.client.replica.forks[fork], c.me);
            D.TimeoutAccepted(c.env, later.chain, c.me, fork, best.latest, best.votes, participant, height)
  {
    RunKeeps(c, w, moves);
    NothingHappened(c, w, moves, fork, height);
    ReadyIsAccepted(c, Run(c, w, moves), fork, participant, clock);
  }

  // ---------- a check that puts its dispute off ----------

  /** A timeout check that only schedules its dispute, for a height that was once the next one, whether a block stands
      there or not; and the world in which the delay is over, whatever happened in between. */
  ghost predicate PutOff(c: Client, w: World, fork: nat, height: nat, participant: Address, clock: nat, posted: bool,
                         fired: World)
  {
    var r := w.client.replica;
    && fork < |r.forks| && height <= |r.forks[fork].agreements| && participant != ZERO_ADDRESS
    && var decision := TryTimeout(c, r, fork, height, participant, clock, posted);
    && decision.Later? && clock + decision.delay <= fired.chain.now <= UINT_MAX
  }

  /** When the claim holds after the delay: no block is recorded at the height, unless it is 0; it is the participant's
      turn in the last state; nothing was posted, and the wait is over also for what was posted on the fork. */
  predicate StillHolds(c: Client, chain: Chain, g: Fork, fork: nat, participant: Address, height: nat) {
    && (height > 0 ==> |g.agreements| == height)
    && participant == c.env.nextToWrite(g.LastState())
    && !chain.CalldataFound(fork, height, participant)
    && chain.LatestPosted(fork, height) + c.times.TimeoutWait() <= chain.now
  }

  /** What the fork `g` at the end of a delay has kept of the fork `f` at its beginning. */
  lemma TimesAreKept(c: Client, w: World, moves: seq<Move>, fork: nat)
    requires fork < |w.client.replica.forks|
    ensures fork < |Run(c, w, moves).client.replica.forks|
    ensures var f, g := w.client.replica.forks[fork], Run(c, w, moves).client.replica.forks[fork];
            && |f.agreements| <= |g.agreements| && g.genesisTimestamp == f.genesisTimestamp
            && (|g.agreements| == |f.agreements| ==> g.LatestBlockTimestamp() == f.LatestBlockTimestamp())
  {
    RunGrows(c, w, moves, 0);
    assert moves[..0] == [];
    var f, g := w.client.replica.forks[fork], Run(c, w, moves).client.replica.forks[fork];
    assert R.ForkExtends(f, g);
    if f.agreements != [] {
      var last := |f.agreements| - 1;
      assert R.AgreementExtends(f.agreements[last], g.agreements[last]);
    }
  }

  lemma DelayedClaim(c: Client, chain: Chain, f: Fork, g: Fork, fork: nat, participant: Address, height: nat)
    requires InOrder(c, chain, g, fork) && participant != c.me && height <= |f.agreements| <= |g.agreements|
    requires g.genesisTimestamp <= f.LatestBlockTimestamp()
    requires |g.agreements| == |f.agreements| ==> g.LatestBlockTimestamp() == f.LatestBlockTimestamp()
    requires f.LatestBlockTimestamp() + c.times.TimeoutWait() <= chain.now <= UINT_MAX
    ensures ClaimHolds(c.env, chain, g, c.me, fork, participant, height)
            <==> StillHolds(c, chain, g, fork, participant, height)
  {}

  /** The dispute after the delay passes every timeout check of createDispute exactly when the claim still holds. */
  lemma DelayedTimeoutVerdict(c: Client, w: World, moves: seq<Move>, fork: nat, height: nat, participant: Address,
                              clock: nat, posted: bool)
    requires c.OwnsSigner() && Invariant(c, w)
    requires PutOff(c, w, fork, height, participant, clock, posted, Run(c, w, moves))
    ensures var fired := Run(c, w, moves);
            fork < |fired.client.replica.forks| &&
            var g := fired.client.replica.forks[fork];
            var best := C.BestCertificate(c.env, g, c.me);
            D.TimeoutAccepted(c.env, fired.chain, c.me, fork, best.latest, best.votes, participant, height)
            <==> StillHolds(c, fired.chain, g, fork, participant, height)
  {
    var fired, f := Run(c, w, moves), w.client.replica.forks[fork];
    RunKeeps(c, w, moves);
    TimesAreKept(c, w, moves, fork);
    ForkIsInOrder(c, w, fork);
    LastTimestamp(f);
    ForkIsInOrder(c, fired, fork);
    ForkTimeoutVerdict(c, fired.chain, fired.client.replica.forks[fork], fork, participant, height);
    DelayedClaim(c, fired.chain, f, fired.client.replica.forks[fork], fork, participant, height);
  }
}
