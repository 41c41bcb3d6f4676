/** Two honest replicas of one channel: their chains agree, or the first difference is provable fraud. */
module AccountableSafety {
  import opened Types
  import opened Storage
  import opened DisputeRules
  import opened ReplicaRules
  import opened ReplicaRuns

  /** The first height below `n` at which the two forks hold different blocks; `n` when there is none. */
  function FirstDifference(f: Fork, g: Fork, n: nat): (i: nat)
    requires n <= |f.agreements| && n <= |g.agreements|
    ensures i <= n && (i < n ==> f.agreements[i].block != g.agreements[i].block)
    ensures forall j :: 0 <= j < i ==> f.agreements[j].block == g.agreements[j].block
  {
    if n == 0 then 0
    else
      var before := FirstDifference(f, g, n - 1);
      if before < n - 1 then before
      else if f.agreements[n - 1].block == g.agreements[n - 1].block then n else n - 1
  }

  /** The machine is deterministic: the same blocks on the same genesis give the same states. */
  lemma {:induction false} SameBlocksSameState(env: Env, f: Fork, g: Fork, n: nat)
    requires f.genesis == g.genesis && n <= |f.agreements| && n <= |g.agreements|
    requires forall i :: 0 <= i < n ==> Executed(env, f, i) && Executed(env, g, i)
    requires forall i :: 0 <= i < n ==> f.agreements[i].block == g.agreements[i].block
    ensures f.StateAfter(n) == g.StateAfter(n)
  {
    if n > 0 {
      SameBlocksSameState(env, f, g, n - 1);
      assert Executed(env, f, n - 1) && Executed(env, g, n - 1);
    }
  }

  /** The pair convicts `author` in every dispute over the fork: it is accepted, `author` ends up slashed,
      and it is a success unless `author` was slashed already. */
  ghost predicate Convicts(env: Env, channelId: ChannelId, fork: nat, first: SignedBlock, second: SignedBlock,
                           author: Address)
  {
    forall d: Dispute | d.channelId == channelId && d.forkCnt == fork ::
      var applied := ApplyDoubleSign(env, d, [(first, second)]);
      && applied.Ok?
      && author in applied.value.dispute.slashed
      && (applied.value.success <==> author !in d.slashed)
  }

  lemma PairConvicts(env: Env, channelId: ChannelId, fork: nat, first: SignedBlock, second: SignedBlock,
                     author: Address)
    requires first.block.ChannelOf() == second.block.ChannelOf() == channelId
    requires first.block.Fork() == second.block.Fork() == fork
    requires first.block.Height() == second.block.Height()
    requires env.Signer(first.block, first.signature) == Some(author) == env.Signer(second.block, second.signature)
    requires env.blockHash(first.block) != env.blockHash(second.block)
    ensures Convicts(env, channelId, fork, first, second, author)
  {}

  lemma ForksAreAccountable(c1: Client, c2: Client, t1: Tracked, t2: Tracked, fork: nat)
    requires c1.env == c2.env && c1.channelId == c2.channelId
    requires Invariant(c1, t1) && Invariant(c2, t2)
    requires fork < |t1.replica.forks| && fork < |t2.replica.forks|
    requires t1.replica.forks[fork].genesis == t2.replica.forks[fork].genesis
    ensures var f1, f2 := t1.replica.forks[fork], t2.replica.forks[fork];
            var n := if t1.Sound(fork) < t2.Sound(fork) then t1.Sound(fork) else t2.Sound(fork);
            n <= |f1.agreements| && n <= |f2.agreements| &&
            var i := FirstDifference(f1, f2, n);
            && (forall j :: 0 <= j <= i ==> f1.StateAfter(j) == f2.StateAfter(j))
            && (i < n ==>
                  var a1, a2 := f1.agreements[i], f2.agreements[i];
                  && a1.block.Author() == a2.block.Author() == c1.env.nextToWrite(f1.StateAfter(i))
                  && a1.signatures != [] && a2.signatures != []
                  && (c1.env.blockHash(a1.block) != c1.env.blockHash(a2.block) ==>
                        Convicts(c1.env, c1.channelId, fork, SignedBlock(a1.block, a1.signatures[0]),
                                 SignedBlock(a2.block, a2.signatures[0]), a1.block.Author())))
  {
    var f1, f2 := t1.replica.forks[fork], t2.replica.forks[fork];
    assert ForkSound(c1, f1, fork, t1.Sound(fork)) && ForkSound(c2, f2, fork, t2.Sound(fork));
    var n := if t1.Sound(fork) < t2.Sound(fork) then t1.Sound(fork) else t2.Sound(fork);
    var i := FirstDifference(f1, f2, n);
    forall j | 0 <= j <= i ensures f1.StateAfter(j) == f2.StateAfter(j) {
      SameBlocksSameState(c1.env, f1, f2, j);
    }
    if i < n {
      var a1, a2 := f1.agreements[i], f2.agreements[i];
      assert Executed(c1.env, f1, i) && Executed(c2.env, f2, i);
      assert Authenticated(c1, fork, i, a1) && Authenticated(c2, fork, i, a2);
      if c1.env.blockHash(a1.block) != c1.env.blockHash(a2.block) {
        PairConvicts(c1.env, c1.channelId, fork, SignedBlock(a1.block, a1.signatures[0]),
                     SignedBlock(a2.block, a2.signatures[0]), a1.block.Author());
      }
    }
  }

  /** Accountable safety, for any two runs that share a fork's genesis state, up to the first failed
      execution of either: one chain is a prefix of the other (i == n), or at the first difference the
      same participant, whose turn it was, signed both blocks, and the two signatures convict it. */
  lemma AccountableSafety(c1: Client, c2: Client, machine1: Bytes, machine2: Bytes, steps1: seq<Step>,
                          steps2: seq<Step>, fork: nat)
    requires c1.env == c2.env && c1.channelId == c2.channelId && c1.OwnsSigner() && c2.OwnsSigner()
    requires fork < |Run(c1, machine1, steps1).replica.forks| && fork < |Run(c2, machine2, steps2).replica.forks|
    requires Run(c1, machine1, steps1).replica.forks[fork].genesis
             == Run(c2, machine2, steps2).replica.forks[fork].genesis
    ensures var t1, t2 := Run(c1, machine1, steps1), Run(c2, machine2, steps2);
            var f1, f2 := t1.replica.forks[fork], t2.replica.forks[fork];
            var n := if t1.Sound(fork) < t2.Sound(fork) then t1.Sound(fork) else t2.Sound(fork);
            n <= |f1.agreements| && n <= |f2.agreements| &&
            var i := FirstDifference(f1, f2, n);
            && (forall j :: 0 <= j <= i ==> f1.StateAfter(j) == f2.StateAfter(j))
            && (i < n ==>
                  var a1, a2 := f1.agreements[i], f2.agreements[i];
                  && a1.block.Author() == a2.block.Author() == c1.env.nextToWrite(f1.StateAfter(i))
                  && a1.signatures != [] && a2.signatures != []
                  && (c1.env.blockHash(a1.block) != c1.env.blockHash(a2.block) ==>
                        Convicts(c1.env, c1.channelId, fork, SignedBlock(a1.block, a1.signatures[0]),
                                 SignedBlock(a2.block, a2.signatures[0]), a1.block.Author())))
  {
    RunKeeps(c1, machine1, steps1);
    RunKeeps(c2, machine2, steps2);
    ForksAreAccountable(c1, c2, Run(c1, machine1, steps1), Run(c2, machine2, steps2), fork);
  }
}
