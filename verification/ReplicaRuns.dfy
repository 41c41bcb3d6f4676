/** Whole runs of the client: what its forks look like after any sequence of steps. */
module ReplicaRuns {
  import opened Types
  import opened ReplicaRules

  datatype Step =
    | StateSet(state: Bytes, forkCnt: nat, timestamp: nat)
    | SignedBlockArrives(signed: SignedBlock, clock: nat, chainTime: nat)
    | ConfirmationArrives(original: SignedBlock, confirmation: Signature, clock: nat, chainTime: nat)
    | Play(body: Bytes, clock: nat)
    | CalldataPosted(posted: SignedBlock, timestamp: nat)
    | TakeFromQueue(fork: nat, height: nat)
    | DisputeSeen(fork: nat)

  function Next(c: Client, r: Replica, step: Step): Replica {
    match step
    case StateSet(state, forkCnt, timestamp) => SetState(c, r, state, forkCnt, timestamp)
    case SignedBlockArrives(signed, clock, chainTime) => OnSignedBlock(c, r, signed, clock, chainTime).replica
    case ConfirmationArrives(signed, confirmation, clock, chainTime) =>
      OnBlockConfirmation(c, r, signed, confirmation, clock, chainTime).replica
    case Play(body, clock) => PlayTransaction(c, r, body, clock).replica
    case CalldataPosted(signed, timestamp) => Collect(c, r, signed, timestamp)
    case TakeFromQueue(fork, height) => Dequeue(r, fork, height)
    case DisputeSeen(fork) => r.(disputed := r.disputed + {fork})
  }

  /** The machine moved, but neither a fork nor a block was recorded for it. */
  predicate Derails(before: Replica, after: Replica) {
    && before.forks != [] && after.machine != before.machine
    && |after.forks| == |before.forks|
    && after.NextHeight() == before.NextHeight()
  }

  /** A replica together with, for every fork whose machine derailed, the number of its agreements then. */
  datatype Tracked = Tracked(replica: Replica, derailed: map<nat, nat>) {
    /** How many agreements of a fork were recorded before its machine first derailed. */
    function Sound(fork: nat): nat
      requires fork < |replica.forks|
    {
      if fork in derailed then derailed[fork] else |replica.forks[fork].agreements|
    }
  }

  function DerailedAfter(t: Tracked, after: Replica): map<nat, nat> {
    var fork := t.replica.LatestFork();
    if Derails(t.replica, after) && fork !in t.derailed then t.derailed[fork := t.replica.NextHeight()] else t.derailed
  }

  function Track(c: Client, t: Tracked, step: Step): Tracked {
    var after := Next(c, t.replica, step);
    Tracked(after, DerailedAfter(t, after))
  }

  function Run(c: Client, machine: Bytes, steps: seq<Step>): Tracked {
    if steps == [] then Tracked(Replica([], map[], {}, machine), map[])
    else Track(c, Run(c, machine, steps[..|steps| - 1]), steps[|steps| - 1])
  }

  // ---------- the invariant ----------

  /** Coordinates and signatures of agreement `i` of fork `fork`: true of every agreement ever recorded. */
  ghost predicate Authenticated(c: Client, fork: nat, i: nat, a: Agreement) {
    && a.block.ChannelOf() == c.channelId && a.block.Fork() == fork && a.block.Height() == i
    && a.signatures != []
    && c.env.Signer(a.block, a.signatures[0]) == Some(a.block.Author())
    && c.env.AllRecover(a.block, a.signatures)
    && Distinct(a.signatures)
  }

  /** Agreement `i` is the transition of the state before it, by the participant whose turn it was. */
  ghost predicate Executed(env: Env, f: Fork, i: nat)
    requires i < |f.agreements|
  {
    var a, before := f.agreements[i], f.StateAfter(i);
    && env.step(before, a.block.transaction) == Some(a.state)
    && a.block.stateHash == env.keccak(a.state)
    && a.block.previousStateHash == env.keccak(before)
    && a.block.Author() == env.nextToWrite(before)
  }

  ghost predicate Timely(f: Fork) {
    && (forall i :: 0 <= i < |f.agreements| ==> f.agreements[i].block.Timestamp() >= f.genesisTimestamp)
    && (forall i, j :: 0 <= i <= j < |f.agreements| ==>
        f.agreements[i].block.Timestamp() <= f.agreements[j].block.Timestamp())
  }

  ghost predicate ForkSound(c: Client, f: Fork, fork: nat, sound: nat) {
    && f.threshold == c.env.participants(f.genesis)
    && sound <= |f.agreements|
    && (forall i :: 0 <= i < |f.agreements| ==> Authenticated(c, fork, i, f.agreements[i]))
    && Timely(f)
    && (forall i :: 0 <= i < sound ==> Executed(c.env, f, i))
  }

  ghost predicate Invariant(c: Client, t: Tracked) {
    && (forall fork: nat :: fork in t.derailed ==> fork < |t.replica.forks|)
    && (forall fork: nat :: fork < |t.replica.forks| ==> ForkSound(c, t.replica.forks[fork], fork, t.Sound(fork)))
    && (t.replica.forks != [] && t.replica.LatestFork() !in t.derailed ==>
          t.replica.machine == t.replica.forks[t.replica.LatestFork()].LastState())
  }

  // ---------- what no step undoes ----------

  ghost predicate AgreementExtends(a: Agreement, b: Agreement) {
    b.block == a.block && b.state == a.state && a.signatures <= b.signatures
  }

  ghost predicate ForkExtends(f: Fork, g: Fork) {
    && g.genesis == f.genesis && g.threshold == f.threshold && g.genesisTimestamp == f.genesisTimestamp
    && f.chainBlocks <= g.chainBlocks
    && |f.agreements| <= |g.agreements|
    && forall i :: 0 <= i < |f.agreements| ==> AgreementExtends(f.agreements[i], g.agreements[i])
  }

  /** Forks, chains, signature lists and posted records are appended to; a past fork gets no new block. */
  ghost predicate Grows(r: Replica, after: Replica) {
    && |r.forks| <= |after.forks|
    && (forall fork: nat :: fork < |r.forks| ==> ForkExtends(r.forks[fork], after.forks[fork]))
    && (forall fork: nat :: fork + 1 < |r.forks| ==> |r.forks[fork].agreements| == |after.forks[fork].agreements|)
  }

  lemma GrowsTransitive(a: Replica, b: Replica, c: Replica)
    requires Grows(a, b) && Grows(b, c)
    ensures Grows(a, c)
  {}

  // ---------- the shape of each step ----------

  lemma ConfirmShape(r: Replica, block: Block, signature: Signature)
    requires ConfirmBlock(r, block, signature).Some?
    ensures var after := ConfirmBlock(r, block, signature).value;
            after.machine == r.machine && |after.forks| == |r.forks| && after.NextHeight() == r.NextHeight()
  {}

  lemma ConfirmGrows(r: Replica, block: Block, signature: Signature)
    requires ConfirmBlock(r, block, signature).Some?
    ensures Grows(r, ConfirmBlock(r, block, signature).value)
  {}

  lemma ValidateShape(c: Client, r: Replica, signed: SignedBlock, clock: nat, chainTime: nat)
    ensures var v := ValidateSignedBlock(c, r, signed, clock, chainTime);
            && |v.replica.forks| == |r.forks|
            && (v.verdict == Success ==>
                  && r.forks != [] && v.replica.NextHeight() == r.NextHeight() + 1
                  && v.replica.queue == r.queue && v.replica.disputed == r.disputed
                  && AddBlock(r.(machine := v.replica.machine), signed.block, signed.signature, v.replica.machine)
                     == Some(v.replica))
            && (v.verdict != Success ==> v.replica.forks == r.forks)
            && (v.verdict != Success && v.replica.machine != r.machine ==> v.verdict == Disputed(Some(IncorrectData)))
  {}

  lemma DecideShape(c: Client, r: Replica, signed: SignedBlock, verdict: Verdict)
    ensures var after := Decide(c, r, signed, verdict);
            && (after.verdict == Success ==> verdict == Success)
            && (after.verdict == Duplicate ==> verdict == Duplicate)
            && after.replica.machine == r.machine && |after.replica.forks| == |r.forks|
            && after.replica.NextHeight() == r.NextHeight()
            && (after.replica.forks == r.forks
                || ((verdict == Success || verdict == Thrown)
                    && ConfirmBlock(r, signed.block, c.MySignature(signed.block)) == Some(after.replica)))
  {}

  /** The block passed every check, its transaction ran and moved the machine, and a hash was then refused. */
  predicate RefusedAfterExecution(c: Client, r: Replica, signed: SignedBlock, clock: nat, chainTime: nat) {
    var v := ValidateSignedBlock(c, r, signed, clock, chainTime);
    v.verdict == Disputed(Some(IncorrectData)) && v.replica.machine != r.machine
  }

  lemma SignedBlockShape(c: Client, r: Replica, signed: SignedBlock, clock: nat, chainTime: nat)
    ensures var after := OnSignedBlock(c, r, signed, clock, chainTime);
            && |after.replica.forks| == |r.forks|
            && (Derails(r, after.replica) <==> r.forks != [] && RefusedAfterExecution(c, r, signed, clock, chainTime))
            && (after.verdict == Success || after.verdict == Duplicate ==>
                !RefusedAfterExecution(c, r, signed, clock, chainTime))
  {
    var v := ValidateSignedBlock(c, r, signed, clock, chainTime);
    ValidateShape(c, r, signed, clock, chainTime);
    DecideShape(c, v.replica, signed, v.verdict);
  }

  lemma AddGrows(r: Replica, block: Block, signature: Signature, state: Bytes)
    requires r.forks != [] && block.Fork() == r.LatestFork() && AddBlock(r, block, signature, state).Some?
    ensures Grows(r, AddBlock(r, block, signature, state).value)
  {}

  lemma SignedBlockGrows(c: Client, r: Replica, signed: SignedBlock, clock: nat, chainTime: nat)
    ensures Grows(r, OnSignedBlock(c, r, signed, clock, chainTime).replica)
  {
    var v := ValidateSignedBlock(c, r, signed, clock, chainTime);
    ValidateShape(c, r, signed, clock, chainTime);
    DecideShape(c, v.replica, signed, v.verdict);
    if v.verdict == Success {
      AddGrows(r.(machine := v.replica.machine), signed.block, signed.signature, v.replica.machine);
    }
    assert Grows(r, v.replica);
    var confirmed := ConfirmBlock(v.replica, signed.block, c.MySignature(signed.block));
    if confirmed.Some? {
      ConfirmGrows(v.replica, signed.block, c.MySignature(signed.block));
      GrowsTransitive(r, v.replica, confirmed.value);
    }
  }

  /** The replica of OnBlockConfirmation, with the block it ensured first. */
  lemma ConfirmationShape(c: Client, r: Replica, signed: SignedBlock, confirmation: Signature, clock: nat,
                          chainTime: nat)
    ensures var after := OnBlockConfirmation(c, r, signed, confirmation, clock, chainTime).replica;
            var ensured := OnSignedBlock(c, r, signed, clock, chainTime);
            || after == r
            || (!r.InChain(signed.block) && after == ensured.replica)
            || (r.InChain(signed.block) && ConfirmBlock(r, signed.block, confirmation) == Some(after)
                && c.env.Signer(signed.block, confirmation).Some?)
            || (!r.InChain(signed.block) && (ensured.verdict == Success || ensured.verdict == Duplicate)
                && ConfirmBlock(ensured.replica, signed.block, confirmation) == Some(after)
                && c.env.Signer(signed.block, confirmation).Some?)
  {}

  lemma CollectShape(c: Client, r: Replica, posted: SignedBlock, timestamp: nat)
    ensures var after := Collect(c, r, posted, timestamp);
            var fork := posted.block.Fork();
            var record := ChainBlock(posted.block.Height(), posted.block.Author(), timestamp);
            && after.machine == r.machine && |after.forks| == |r.forks| && after.NextHeight() == r.NextHeight()
            && (after.forks == r.forks
                || (fork < |r.forks|
                    && var f := r.forks[fork];
                       after.forks == r.forks[fork := f.(chainBlocks := f.chainBlocks + [record])]))
  {}

  lemma ConfirmationGrows(c: Client, r: Replica, signed: SignedBlock, confirmation: Signature, clock: nat,
                          chainTime: nat)
    ensures Grows(r, OnBlockConfirmation(c, r, signed, confirmation, clock, chainTime).replica)
  {
    SignedBlockGrows(c, r, signed, clock, chainTime);
    ConfirmationShape(c, r, signed, confirmation, clock, chainTime);
    var ensured := if r.InChain(signed.block) then r else OnSignedBlock(c, r, signed, clock, chainTime).replica;
    if ConfirmBlock(ensured, signed.block, confirmation).Some? {
      ConfirmGrows(ensured, signed.block, confirmation);
      GrowsTransitive(r, ensured, ConfirmBlock(ensured, signed.block, confirmation).value);
    }
  }

  lemma StepGrows(c: Client, r: Replica, step: Step)
    ensures Grows(r, Next(c, r, step))
  {
    match step
    case SignedBlockArrives(signed, clock, chainTime) => SignedBlockGrows(c, r, signed, clock, chainTime);
    case ConfirmationArrives(signed, confirmation, clock, chainTime) =>
      ConfirmationGrows(c, r, signed, confirmation, clock, chainTime);
    case Play(body, clock) =>
      var after := PlayTransaction(c, r, body, clock).replica;
      if after.forks != r.forks { PlayIsAdd(c, r, body, clock); }
    case CalldataPosted(posted, timestamp) => CollectShape(c, r, posted, timestamp);
    case _ =>
  }

  lemma PlayIsAdd(c: Client, r: Replica, body: Bytes, clock: nat)
    requires PlayTransaction(c, r, body, clock).replica.forks != r.forks
    ensures Grows(r, PlayTransaction(c, r, body, clock).replica)
  {}

  // ---------- the two ways a fork changes ----------

  lemma ReplaceFork(c: Client, t: Tracked, fork: nat, g: Fork, machine: Bytes)
    requires Invariant(c, t) && fork < |t.replica.forks|
    requires |g.agreements| == |t.replica.forks[fork].agreements| || fork == t.replica.LatestFork()
    requires ForkSound(c, g, fork, if fork in t.derailed then t.derailed[fork] else |g.agreements|)
    requires t.replica.LatestFork() in t.derailed
             || machine == (if fork == t.replica.LatestFork() then g.LastState() else t.replica.machine)
    ensures Invariant(c, Tracked(t.replica.WithFork(fork, g).(machine := machine), t.derailed))
  {}

  lemma ConfirmAuthenticates(c: Client, fork: nat, height: nat, a: Agreement, signature: Signature)
    requires Authenticated(c, fork, height, a)
    requires c.env.Signer(a.block, signature).Some? && signature !in a.signatures
    ensures Authenticated(c, fork, height, a.(signatures := a.signatures + [signature]))
  {}

  lemma ConfirmKeeps(c: Client, t: Tracked, block: Block, signature: Signature)
    requires Invariant(c, t) && c.env.Signer(block, signature).Some?
    requires ConfirmBlock(t.replica, block, signature).Some?
    ensures Invariant(c, Tracked(ConfirmBlock(t.replica, block, signature).value, t.derailed))
  {
    var fork, height := block.Fork(), block.Height();
    var f, a := t.replica.forks[fork], t.replica.AgreementAt(fork, height);
    var g := f.(agreements := f.agreements[height := a.(signatures := a.signatures + [signature])]);
    assert Authenticated(c, fork, height, a);
    ConfirmAuthenticates(c, fork, height, a, signature);
    forall i | 0 <= i < |g.agreements| ensures Authenticated(c, fork, i, g.agreements[i]) {
      assert Authenticated(c, fork, i, f.agreements[i]);
    }
    forall i | 0 <= i < t.Sound(fork) ensures Executed(c.env, g, i) {
      assert Executed(c.env, f, i);
    }
    assert g.LastState() == f.LastState();
    ReplaceFork(c, t, fork, g, t.replica.machine);
  }

  lemma AppendKeeps(c: Client, t: Tracked, block: Block, signature: Signature, state: Bytes)
    requires Invariant(c, t) && t.replica.forks != []
    requires block.ChannelOf() == c.channelId && block.Fork() == t.replica.LatestFork()
             && block.Height() == t.replica.NextHeight()
    requires c.env.Signer(block, signature) == Some(block.Author())
    requires block.Timestamp() >= t.replica.forks[block.Fork()].LatestBlockTimestamp()
    requires c.env.step(t.replica.machine, block.transaction) == Some(state)
    requires block.stateHash == c.env.keccak(state) && block.previousStateHash == c.env.keccak(t.replica.machine)
    requires block.Author() == c.env.nextToWrite(t.replica.machine)
    ensures var after := AddBlock(t.replica.(machine := state), block, signature, state);
            after.Some? && Invariant(c, Tracked(after.value, t.derailed))
  {
    var fork := block.Fork();
    var f, a := t.replica.forks[fork], Agreement(block, [signature], state);
    var g := f.(agreements := f.agreements + [a]);
    forall i | 0 <= i < |g.agreements| ensures Authenticated(c, fork, i, g.agreements[i]) {
      if i < |f.agreements| { assert Authenticated(c, fork, i, f.agreements[i]); }
    }
    forall i | 0 <= i < if fork in t.derailed then t.derailed[fork] else |g.agreements| ensures Executed(c.env, g, i) {
      if i < |f.agreements| { assert Executed(c.env, f, i); }
    }
    ReplaceFork(c, t, fork, g, state);
  }

  // ---------- every step keeps the invariant ----------

  /** Only the machine, the queue or the disputed forks differ. */
  lemma NoBlockKeeps(c: Client, t: Tracked, after: Replica)
    requires Invariant(c, t) && after.forks == t.replica.forks
    ensures Invariant(c, Tracked(after, DerailedAfter(t, after)))
  {}

  lemma ValidateKeeps(c: Client, t: Tracked, signed: SignedBlock, clock: nat, chainTime: nat)
    requires Invariant(c, t) && ValidateSignedBlock(c, t.replica, signed, clock, chainTime).verdict == Success
    ensures Invariant(c, Tracked(ValidateSignedBlock(c, t.replica, signed, clock, chainTime).replica, t.derailed))
  {
    AppendKeeps(c, t, signed.block, signed.signature,
                ValidateSignedBlock(c, t.replica, signed, clock, chainTime).replica.machine);
  }

  /** The client's own confirmation, where it can be added. */
  lemma DecideKeeps(c: Client, t: Tracked, signed: SignedBlock, verdict: Verdict)
    requires c.OwnsSigner() && Invariant(c, t)
    ensures var after := Decide(c, t.replica, signed, verdict).replica; Invariant(c, Tracked(after, t.derailed))
  {
    var after, mine := Decide(c, t.replica, signed, verdict).replica, c.MySignature(signed.block);
    DecideShape(c, t.replica, signed, verdict);
    if after.forks == t.replica.forks {
      NoBlockKeeps(c, t, after);
    } else {
      c.MySignatureIsMine(signed.block);
      ConfirmKeeps(c, t, signed.block, mine);
    }
  }

  lemma SignedBlockKeeps(c: Client, t: Tracked, signed: SignedBlock, clock: nat, chainTime: nat)
    requires c.OwnsSigner() && Invariant(c, t)
    ensures var after := OnSignedBlock(c, t.replica, signed, clock, chainTime).replica;
            Invariant(c, Tracked(after, DerailedAfter(t, after)))
  {
    var v := ValidateSignedBlock(c, t.replica, signed, clock, chainTime);
    var after := OnSignedBlock(c, t.replica, signed, clock, chainTime).replica;
    var derailed := DerailedAfter(t, v.replica);
    ValidateShape(c, t.replica, signed, clock, chainTime);
    DecideShape(c, v.replica, signed, v.verdict);
    if v.verdict == Success {
      ValidateKeeps(c, t, signed, clock, chainTime);
    } else {
      NoBlockKeeps(c, t, v.replica);
    }
    DecideKeeps(c, Tracked(v.replica, derailed), signed, v.verdict);
    assert DerailedAfter(t, after) == derailed;
  }

  lemma ConfirmationKeeps(c: Client, t: Tracked, signed: SignedBlock, confirmation: Signature, clock: nat,
                          chainTime: nat)
    requires c.OwnsSigner() && Invariant(c, t)
    ensures var after := OnBlockConfirmation(c, t.replica, signed, confirmation, clock, chainTime).replica;
            Invariant(c, Tracked(after, DerailedAfter(t, after)))
  {
    var r := t.replica;
    var after := OnBlockConfirmation(c, r, signed, confirmation, clock, chainTime).replica;
    ConfirmationShape(c, r, signed, confirmation, clock, chainTime);
    var ensured := if r.InChain(signed.block) then r else OnSignedBlock(c, r, signed, clock, chainTime).replica;
    if !r.InChain(signed.block) {
      SignedBlockShape(c, r, signed, clock, chainTime);
      SignedBlockKeeps(c, t, signed, clock, chainTime);
    }
    if after != r && after != ensured {
      ConfirmShape(ensured, signed.block, confirmation);
      ConfirmKeeps(c, Tracked(ensured, t.derailed), signed.block, confirmation);
    }
  }

  lemma PlayKeeps(c: Client, t: Tracked, body: Bytes, clock: nat)
    requires c.OwnsSigner() && Invariant(c, t)
    ensures var after := PlayTransaction(c, t.replica, body, clock).replica;
            Invariant(c, Tracked(after, t.derailed)) && !Derails(t.replica, after)
  {
    var r, played := t.replica, PlayTransaction(c, t.replica, body, clock);
    if played.replica != r {
      var block := OwnBlock(c, r, body, clock);
      c.MySignatureIsMine(block);
      AppendKeeps(c, t, block, c.MySignature(block), c.env.step(r.machine, block.transaction).value);
    }
  }

  lemma StateSetKeeps(c: Client, t: Tracked, state: Bytes, forkCnt: nat, timestamp: nat)
    requires Invariant(c, t)
    ensures var after := SetState(c, t.replica, state, forkCnt, timestamp);
            Invariant(c, Tracked(after, DerailedAfter(t, after)))
  {
    var after := SetState(c, t.replica, state, forkCnt, timestamp);
    if |t.replica.forks| != forkCnt {
      NoBlockKeeps(c, t, after);
    } else {
      assert ForkSound(c, after.forks[forkCnt], forkCnt, 0);
      forall fork: nat | fork < |t.replica.forks| ensures ForkSound(c, after.forks[fork], fork, t.Sound(fork)) {
        assert after.forks[fork] == t.replica.forks[fork];
      }
    }
  }

  lemma RecordKeeps(c: Client, t: Tracked, fork: nat, posted: ChainBlock)
    requires Invariant(c, t) && fork < |t.replica.forks|
    ensures var f := t.replica.forks[fork];
            Invariant(c, Tracked(t.replica.WithFork(fork, f.(chainBlocks := f.chainBlocks + [posted])), t.derailed))
  {
    var f := t.replica.forks[fork];
    var g := f.(chainBlocks := f.chainBlocks + [posted]);
    forall i | 0 <= i < t.Sound(fork) ensures Executed(c.env, g, i) { assert Executed(c.env, f, i); }
    ReplaceFork(c, t, fork, g, t.replica.machine);
  }

  lemma CollectKeeps(c: Client, t: Tracked, posted: SignedBlock, timestamp: nat)
    requires Invariant(c, t)
    ensures Invariant(c, Tracked(Collect(c, t.replica, posted, timestamp), t.derailed))
  {
    var after := Collect(c, t.replica, posted, timestamp);
    CollectShape(c, t.replica, posted, timestamp);
    var unrecorded := after.(forks := t.replica.forks);
    NoBlockKeeps(c, t, unrecorded);
    if after.forks != t.replica.forks {
      RecordKeeps(c, Tracked(unrecorded, t.derailed), posted.block.Fork(),
                  ChainBlock(posted.block.Height(), posted.block.Author(), timestamp));
    }
  }

  lemma TrackKeeps(c: Client, t: Tracked, step: Step)
    requires c.OwnsSigner() && Invariant(c, t)
    ensures Invariant(c, Track(c, t, step))
  {
    match step
    case StateSet(state, forkCnt, timestamp) => StateSetKeeps(c, t, state, forkCnt, timestamp);
    case SignedBlockArrives(signed, clock, chainTime) => SignedBlockKeeps(c, t, signed, clock, chainTime);
    case ConfirmationArrives(signed, confirmation, clock, chainTime) =>
      ConfirmationKeeps(c, t, signed, confirmation, clock, chainTime);
    case Play(body, clock) => PlayKeeps(c, t, body, clock);
    case CalldataPosted(posted, timestamp) =>
      CollectShape(c, t.replica, posted, timestamp);
      CollectKeeps(c, t, posted, timestamp);
    case TakeFromQueue(fork, height) => NoBlockKeeps(c, t, Dequeue(t.replica, fork, height));
    case DisputeSeen(fork) => NoBlockKeeps(c, t, Next(c, t.replica, step));
  }

  /** Every run keeps the invariant. */
  lemma {:induction false} RunKeeps(c: Client, machine: Bytes, steps: seq<Step>)
    requires c.OwnsSigner()
    ensures Invariant(c, Run(c, machine, steps))
  {
    if steps != [] {
      RunKeeps(c, machine, steps[..|steps| - 1]);
      TrackKeeps(c, Run(c, machine, steps[..|steps| - 1]), steps[|steps| - 1]);
    }
  }

  /** A longer run only appends to what a shorter one recorded. */
  lemma {:induction false} RunGrows(c: Client, machine: Bytes, steps: seq<Step>, n: nat)
    requires n <= |steps|
    ensures Grows(Run(c, machine, steps[..n]).replica, Run(c, machine, steps).replica)
  {
    if n == |steps| {
      assert steps[..n] == steps;
    } else {
      var front := steps[..|steps| - 1];
      RunGrows(c, machine, front, n);
      assert front[..n] == steps[..n];
      StepGrows(c, Run(c, machine, front).replica, steps[|steps| - 1]);
      GrowsTransitive(Run(c, machine, steps[..n]).replica, Run(c, machine, front).replica,
                      Run(c, machine, steps).replica);
    }
  }

  // ---------- the client signs what it records ----------

  /** The client has signed agreement `i` of the fork. */
  predicate SignsAt(c: Client, r: Replica, fork: nat, i: nat)
    requires r.Known(fork, i)
  {
    c.env.Signs(r.AgreementAt(fork, i).block, r.AgreementAt(fork, i).signatures, c.me)
  }

  /** The client has signed every block of every fork. */
  ghost predicate SignsAll(c: Client, r: Replica) {
    forall fork: nat, i: nat :: r.Known(fork, i) ==> SignsAt(c, r, fork, i)
  }

  ghost predicate SignsAllBut(c: Client, r: Replica, block: Block) {
    forall fork: nat, i: nat :: r.Known(fork, i) && (fork, i) != (block.Fork(), block.Height()) ==>
      SignsAt(c, r, fork, i)
  }

  lemma ConfirmSigns(c: Client, r: Replica, block: Block, signature: Signature)
    requires ConfirmBlock(r, block, signature).Some?
    requires SignsAll(c, r) || (SignsAllBut(c, r, block) && c.env.Signer(block, signature) == Some(c.me))
    ensures SignsAll(c, ConfirmBlock(r, block, signature).value)
  {
    var after := ConfirmBlock(r, block, signature).value;
    forall fork: nat, i: nat | after.Known(fork, i) ensures SignsAt(c, after, fork, i) {
      var a, b := r.AgreementAt(fork, i), after.AgreementAt(fork, i);
      assert b.block == a.block && forall s <- a.signatures :: s in b.signatures;
      assert (fork, i) == (block.Fork(), block.Height()) ==> signature in b.signatures;
      assert SignsAll(c, r) ==> SignsAt(c, r, fork, i);
    }
  }

  lemma AddSigns(c: Client, r: Replica, block: Block, signature: Signature, state: Bytes)
    requires SignsAll(c, r) && AddBlock(r, block, signature, state).Some?
    requires block.Fork() < |r.forks| && block.Height() == |r.forks[block.Fork()].agreements|
    ensures var after := AddBlock(r, block, signature, state).value;
            && after.InChain(block) && after.AgreementAt(block.Fork(), block.Height()).signatures == [signature]
            && SignsAllBut(c, after, block)
            && (c.env.Signer(block, signature) == Some(c.me) ==> SignsAll(c, after))
  {
    var after := AddBlock(r, block, signature, state).value;
    forall fork: nat, i: nat | after.Known(fork, i) && (fork, i) != (block.Fork(), block.Height())
      ensures SignsAt(c, after, fork, i)
    {
      assert SignsAt(c, r, fork, i);
    }
    assert signature in after.AgreementAt(block.Fork(), block.Height()).signatures;
  }

  lemma SameForksSign(c: Client, r: Replica, after: Replica)
    requires SignsAll(c, r) && after.forks == r.forks
    ensures SignsAll(c, after)
  {
    forall fork: nat, i: nat | after.Known(fork, i)
      ensures SignsAt(c, after, fork, i) { assert SignsAt(c, r, fork, i); }
  }

  lemma SignedBlockSigns(c: Client, r: Replica, signed: SignedBlock, clock: nat, chainTime: nat)
    requires c.OwnsSigner() && SignsAll(c, r)
    ensures SignsAll(c, OnSignedBlock(c, r, signed, clock, chainTime).replica)
  {
    var v, block, mine := ValidateSignedBlock(c, r, signed, clock, chainTime), signed.block,
                          c.MySignature(signed.block);
    ValidateShape(c, r, signed, clock, chainTime);
    DecideShape(c, v.replica, signed, v.verdict);
    c.MySignatureIsMine(block);
    if v.verdict == Success {
      var moved := r.(machine := v.replica.machine);
      SameForksSign(c, r, moved);
      AddSigns(c, moved, block, signed.signature, v.replica.machine);
      if mine != signed.signature { ConfirmSigns(c, v.replica, block, mine); }
    } else {
      SameForksSign(c, r, v.replica);
      if ConfirmBlock(v.replica, block, mine).Some? { ConfirmSigns(c, v.replica, block, mine); }
      if Decide(c, v.replica, signed, v.verdict).replica.forks == v.replica.forks {
        SameForksSign(c, v.replica, Decide(c, v.replica, signed, v.verdict).replica);
      }
    }
  }

  lemma ConfirmationSigns(c: Client, r: Replica, signed: SignedBlock, confirmation: Signature, clock: nat,
                          chainTime: nat)
    requires c.OwnsSigner() && SignsAll(c, r)
    ensures SignsAll(c, OnBlockConfirmation(c, r, signed, confirmation, clock, chainTime).replica)
  {
    SignedBlockSigns(c, r, signed, clock, chainTime);
    ConfirmationShape(c, r, signed, confirmation, clock, chainTime);
    var ensured := if r.InChain(signed.block) then r else OnSignedBlock(c, r, signed, clock, chainTime).replica;
    if ConfirmBlock(ensured, signed.block, confirmation).Some? {
      ConfirmSigns(c, ensured, signed.block, confirmation);
    }
  }

  lemma PlaySigns(c: Client, r: Replica, body: Bytes, clock: nat)
    requires c.OwnsSigner() && SignsAll(c, r)
    ensures SignsAll(c, PlayTransaction(c, r, body, clock).replica)
  {
    var played := PlayTransaction(c, r, body, clock);
    if played.replica.forks == r.forks {
      SameForksSign(c, r, played.replica);
    } else {
      var block := OwnBlock(c, r, body, clock);
      var state := c.env.step(r.machine, block.transaction).value;
      c.MySignatureIsMine(block);
      SameForksSign(c, r, r.(machine := state));
      AddSigns(c, r.(machine := state), block, c.MySignature(block), state);
    }
  }

  lemma CollectSigns(c: Client, r: Replica, posted: SignedBlock, timestamp: nat)
    requires SignsAll(c, r)
    ensures SignsAll(c, Collect(c, r, posted, timestamp))
  {
    var after := Collect(c, r, posted, timestamp);
    CollectShape(c, r, posted, timestamp);
    forall fork: nat, i: nat | after.Known(fork, i) ensures SignsAt(c, after, fork, i) {
      assert after.AgreementAt(fork, i) == r.AgreementAt(fork, i) && SignsAt(c, r, fork, i);
    }
  }

  /** Every step keeps it: what a step appends it also signs. */
  lemma StepSigns(c: Client, r: Replica, step: Step)
    requires c.OwnsSigner() && SignsAll(c, r)
    ensures SignsAll(c, Next(c, r, step))
  {
    match step
    case SignedBlockArrives(signed, clock, chainTime) => SignedBlockSigns(c, r, signed, clock, chainTime);
    case ConfirmationArrives(signed, confirmation, clock, chainTime) =>
      ConfirmationSigns(c, r, signed, confirmation, clock, chainTime);
    case Play(body, clock) => PlaySigns(c, r, body, clock);
    case CalldataPosted(posted, timestamp) => CollectSigns(c, r, posted, timestamp);
    case StateSet(state, forkCnt, timestamp) =>
      var after := SetState(c, r, state, forkCnt, timestamp);
      forall fork: nat, i: nat | after.Known(fork, i) ensures SignsAt(c, after, fork, i) {
        assert SignsAt(c, r, fork, i);
      }
    case _ => SameForksSign(c, r, Next(c, r, step));
  }

  /** On every run the client has signed every block it holds. */
  lemma {:induction false} RunSigns(c: Client, machine: Bytes, steps: seq<Step>)
    requires c.OwnsSigner()
    ensures SignsAll(c, Run(c, machine, steps).replica)
  {
    if steps != [] {
      RunSigns(c, machine, steps[..|steps| - 1]);
      StepSigns(c, Run(c, machine, steps[..|steps| - 1]).replica, steps[|steps| - 1]);
    }
  }

  // ---------- what derails a replica ----------

  /** A step derails a replica exactly when a block is refused after its execution moved the machine, or
      when a state other than the machine's is set under a fork number that is not the next one. */
  lemma WhatDerails(c: Client, r: Replica, step: Step)
    requires r.forks != []
    ensures Derails(r, Next(c, r, step)) <==>
            match step
            case StateSet(state, forkCnt, _) => forkCnt != |r.forks| && state != r.machine
            case SignedBlockArrives(signed, clock, chainTime) => RefusedAfterExecution(c, r, signed, clock, chainTime)
            case ConfirmationArrives(signed, _, clock, chainTime) =>
              !r.InChain(signed.block) && RefusedAfterExecution(c, r, signed, clock, chainTime)
            case _ => false
  {
    match step
    case SignedBlockArrives(signed, clock, chainTime) => SignedBlockShape(c, r, signed, clock, chainTime);
    case ConfirmationArrives(signed, confirmation, clock, chainTime) =>
      SignedBlockShape(c, r, signed, clock, chainTime);
      ConfirmationDerails(c, r, signed, confirmation, clock, chainTime);
    case Play(body, clock) => PlayNeverDerails(c, r, body, clock);
    case CalldataPosted(posted, timestamp) => CollectShape(c, r, posted, timestamp);
    case _ =>
  }

  lemma ConfirmationDerails(c: Client, r: Replica, signed: SignedBlock, confirmation: Signature, clock: nat,
                            chainTime: nat)
    requires r.forks != []
    ensures Derails(r, OnBlockConfirmation(c, r, signed, confirmation, clock, chainTime).replica) <==>
            !r.InChain(signed.block) && RefusedAfterExecution(c, r, signed, clock, chainTime)
  {
    var ensured := OnSignedBlock(c, r, signed, clock, chainTime).replica;
    SignedBlockShape(c, r, signed, clock, chainTime);
    ConfirmationShape(c, r, signed, confirmation, clock, chainTime);
    if ConfirmBlock(r, signed.block, confirmation).Some? { ConfirmShape(r, signed.block, confirmation); }
    if ConfirmBlock(ensured, signed.block, confirmation).Some? { ConfirmShape(ensured, signed.block, confirmation); }
  }

  lemma PlayNeverDerails(c: Client, r: Replica, body: Bytes, clock: nat)
    ensures !Derails(r, PlayTransaction(c, r, body, clock).replica)
  {}
}
