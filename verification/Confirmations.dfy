/** Confirmations until everyone has signed a block. */
module Confirmations {
  import opened Types
  import D = DisputeRules
  import opened ReplicaRules
  import R = ReplicaRuns
  import C = Certificates
  import P = ProofManager
  import CV = ClientVerdicts
  import T = Timeouts
  import opened Counterexamples

  /** One confirmation of the block after the other. */
  function Confirming(signed: SignedBlock, confirmations: seq<Signature>, clock: nat): seq<R.Step> {
    seq(|confirmations|, i requires 0 <= i < |confirmations| =>
        R.ConfirmationArrives(signed, confirmations[i], clock, 0))
  }

  function NextAll(c: Client, r: Replica, steps: seq<R.Step>): Replica {
    if steps == [] then r else R.Next(c, NextAll(c, r, steps[..|steps| - 1]), steps[|steps| - 1])
  }

  /** The signatures under a held block. */
  function SignaturesOf(r: Replica, block: Block): seq<Signature>
    requires CV.Held(r, block)
  {
    r.forks[block.transaction.header.forkCnt].agreements[block.transaction.header.transactionCnt].signatures
  }

  /** A participant of the latest fork made the confirmation. */
  predicate ByParticipant(c: Client, r: Replica, block: Block, confirmation: Signature) {
    && r.forks != []
    && c.env.recover(c.env.blockHash(block), confirmation).Some?
    && c.env.recover(c.env.blockHash(block), confirmation).value in r.forks[|r.forks| - 1].threshold
  }

  /** The block is still held, with all the signatures it had and with the confirmations. */
  predicate HasThem(r: Replica, after: Replica, block: Block, confirmations: seq<Signature>)
    requires CV.Held(r, block) && block.Fork() == |r.forks| - 1
  {
    && CV.Held(after, block) && |after.forks| == |r.forks|
    && after.forks[|r.forks| - 1].threshold == r.forks[|r.forks| - 1].threshold
    && SignaturesOf(r, block) <= SignaturesOf(after, block)
    && forall s <- confirmations :: s in SignaturesOf(after, block)
  }

  lemma OneConfirmation(c: Client, r: Replica, signed: SignedBlock, confirmation: Signature, clock: nat)
    requires CV.Authored(c, signed) && CV.Held(r, signed.block) && signed.block.Fork() == |r.forks| - 1
    requires ByParticipant(c, r, signed.block, confirmation)
    ensures HasThem(r, R.Next(c, r, R.ConfirmationArrives(signed, confirmation, clock, 0)), signed.block,
                    [confirmation])
  {
    CV.ConfirmationOfHeld(c, r, signed, confirmation, clock, 0);
  }

  lemma HasMore(r: Replica, before: Replica, after: Replica, block: Block, confirmations: seq<Signature>,
                last: Signature)
    requires CV.Held(r, block) && block.Fork() == |r.forks| - 1 && HasThem(r, before, block, confirmations)
    requires HasThem(before, after, block, [last])
    ensures HasThem(r, after, block, confirmations + [last])
  {
    forall s | s in confirmations + [last] ensures s in SignaturesOf(after, block) {
      if s in confirmations { assert s in SignaturesOf(before, block); } else { assert s in [last]; }
    }
  }

  lemma OneMore(c: Client, r: Replica, before: Replica, signed: SignedBlock, confirmations: seq<Signature>,
                last: Signature, clock: nat)
    requires CV.Authored(c, signed) && CV.Held(r, signed.block) && signed.block.Fork() == |r.forks| - 1
    requires HasThem(r, before, signed.block, confirmations) && ByParticipant(c, r, signed.block, last)
    ensures HasThem(r, R.Next(c, before, R.ConfirmationArrives(signed, last, clock, 0)), signed.block, confirmations
                    + [last])
  {
    OneConfirmation(c, before, signed, last, clock);
    HasMore(r, before, R.Next(c, before, R.ConfirmationArrives(signed, last, clock, 0)), signed.block, confirmations,
            last);
  }

  lemma ConfirmingOneMore(c: Client, r: Replica, signed: SignedBlock, confirmations: seq<Signature>, last: Signature,
                          clock: nat)
    ensures NextAll(c, r, Confirming(signed, confirmations + [last], clock)) ==
            R.Next(c, NextAll(c, r, Confirming(signed, confirmations, clock)),
                   R.ConfirmationArrives(signed, last, clock, 0))
  {
    var steps := Confirming(signed, confirmations + [last], clock);
    assert steps[..|steps| - 1] == Confirming(signed, confirmations, clock);
  }

  /** Confirmations by participants are all recorded, whatever their order and however often they come. */
  lemma {:induction false} AllAreRecorded(c: Client, r: Replica, signed: SignedBlock, confirmations: seq<Signature>,
                                          clock: nat)
    requires CV.Authored(c, signed) && CV.Held(r, signed.block) && signed.block.Fork() == |r.forks| - 1
    requires forall s <- confirmations :: ByParticipant(c, r, signed.block, s)
    ensures HasThem(r, NextAll(c, r, Confirming(signed, confirmations, clock)), signed.block, confirmations)
  {
    if confirmations != [] {
      var front, last := confirmations[..|confirmations| - 1], confirmations[|confirmations| - 1];
      AllAreRecorded(c, r, signed, front, clock);
      assert confirmations == front + [last];
      assert ByParticipant(c, r, signed.block, last) by { assert last in confirmations; }
      OneMore(c, r, NextAll(c, r, Confirming(signed, front, clock)), signed, front, last, clock);
      ConfirmingOneMore(c, r, signed, front, last, clock);
    }
  }

  /** A signature of the address is under the block, or among the confirmations. */
  ghost predicate SignsOrConfirms(c: Client, r: Replica, block: Block, confirmations: seq<Signature>, a: Address)
    requires CV.Held(r, block)
  {
    exists s <- SignaturesOf(r, block) + confirmations :: c.env.recover(c.env.blockHash(block), s) == Some(a)
  }

  /** When every address of the threshold has signed or confirms, everyone has signed the block in the end. */
  lemma ThresholdCompleted(c: Client, r: Replica, signed: SignedBlock, confirmations: seq<Signature>, clock: nat)
    requires CV.Authored(c, signed) && CV.Held(r, signed.block) && signed.block.Fork() == |r.forks| - 1
    requires forall s <- confirmations :: ByParticipant(c, r, signed.block, s)
    requires forall a <- r.forks[|r.forks| - 1].threshold :: SignsOrConfirms(c, r, signed.block, confirmations, a)
    ensures T.SignedByEveryone(c, NextAll(c, r, Confirming(signed, confirmations, clock)), signed.block.Fork(),
                               signed.block.Height())
  {
    var after, h := NextAll(c, r, Confirming(signed, confirmations, clock)), c.env.blockHash(signed.block);
    AllAreRecorded(c, r, signed, confirmations, clock);
    var threshold, signatures := after.forks[signed.block.Fork()].threshold, SignaturesOf(after, signed.block);
    forall k | 0 <= k < |threshold|
      ensures T.HasSigned(c, after.forks[signed.block.Fork()].agreements[signed.block.Height()], threshold[k])
    {
      assert SignsOrConfirms(c, r, signed.block, confirmations, threshold[k]);
      var s :| s in SignaturesOf(r, signed.block) + confirmations && c.env.recover(h, s) == Some(threshold[k]);
      assert s in signatures;
      var i :| 0 <= i < |signatures| && signatures[i] == s;
    }
  }

  // ---------- a run ----------

  /** Three participants: 7 receives and confirms a block by 8, and then 9's confirmation. */
  function ThreeSteps(): seq<R.Step> {
    [R.StateSet([0], 0, 100), R.SignedBlockArrives(ToggleBlock(0), 110, 0),
     R.ConfirmationArrives(ToggleBlock(0), 9, 110, 0)]
  }

  function Three(signatures: seq<Signature>): R.Tracked {
    R.Tracked(Replica([Fork([0], [7, 8, 9], 100, [], [Agreement(ToggleBlock(0).block, signatures, [1])])], map[], {},
                      [1]), map[])
  }

  const OPENED := R.Tracked(Replica([Fork([0], [7, 8, 9], 100, [], [])], map[], {}, [0]), map[])

  lemma BlockOfThree()
    ensures R.Track(Observer(7, [7, 8, 9]), OPENED, ThreeSteps()[1]) == Three([8, 7])
  {
    var c, r, signed := Observer(7, [7, 8, 9]), OPENED.replica, ToggleBlock(0);
    CV.NextArrival(c, r, signed, 110, 0);
    var f, g, none := r.forks[0], Three([8, 7]).replica.forks[0], OPENED.replica.forks[0].agreements;
    assert none + [Agreement(signed.block, [8, 7], [1])] == g.agreements;
    assert [f][0 := g] == [g];
  }

  lemma ConfirmationOfThree()
    ensures R.Track(Observer(7, [7, 8, 9]), Three([8, 7]), ThreeSteps()[2]) == Three([8, 7, 9])
  {
    var c, r, signed := Observer(7, [7, 8, 9]), Three([8, 7]).replica, ToggleBlock(0);
    CV.ConfirmationOfHeld(c, r, signed, 9, 110, 0);
    assert [8, 7] + [9] == [8, 7, 9];
    var f, g := r.forks[0], Three([8, 7, 9]).replica.forks[0];
    assert f.agreements[0 := g.agreements[0]] == g.agreements;
    assert [f][0 := g] == [g];
  }

  /** The confirmation completes the threshold: with it the block is final, the client can undo a timeout at its height,
      and does not claim one. */
  lemma ConfirmationCompletes()
    ensures var c := Observer(7, [7, 8, 9]);
            && R.Run(c, [0], ThreeSteps()[..2]) == Three([8, 7]) && R.Run(c, [0], ThreeSteps()) == Three([8, 7, 9])
            && !T.SignedByEveryone(c, Three([8, 7]).replica, 0, 0)
            && T.SignedByEveryone(c, Three([8, 7, 9]).replica, 0, 0)
            && P.CreateFoldRechallengeProof(c.env, Three([8, 7, 9]).replica, 0, 0)
               == Some(D.FoldRechallenge(ToggleBlock(0).block, [8, 7, 9]))
            && T.TryTimeout(c, Three([8, 7, 9]).replica, 0, 0, 8, 150, false) == T.Skip
            && C.Covers(c.env, Three([8, 7, 9]).replica.forks[0], 0, 0)
            && !C.Covers(c.env, Three([8, 7]).replica.forks[0], 0, 0)
  {
    var c, steps := Observer(7, [7, 8, 9]), ThreeSteps();
    RunTo(c, [0], steps, 0, R.Run(c, [0], []), OPENED);
    BlockOfThree();
    RunTo(c, [0], steps, 1, OPENED, Three([8, 7]));
    ConfirmationOfThree();
    RunTo(c, [0], steps, 2, Three([8, 7]), Three([8, 7, 9]));
    assert steps[..3] == steps;
    EveryoneOfThree();
    R.RunKeeps(c, [0], steps);
    T.RechallengeExists(c, Three([8, 7, 9]), 0, 0);
    T.CheckAnswer(c, Three([8, 7, 9]), 0, 0, 8, 150, false);
  }

  lemma EveryoneOfThree()
    ensures var c := Observer(7, [7, 8, 9]);
            && !T.SignedByEveryone(c, Three([8, 7]).replica, 0, 0)
            && T.SignedByEveryone(c, Three([8, 7, 9]).replica, 0, 0)
            && C.Covers(c.env, Three([8, 7, 9]).replica.forks[0], 0, 0)
            && !C.Covers(c.env, Three([8, 7]).replica.forks[0], 0, 0)
  {
    var c, f, g := Observer(7, [7, 8, 9]), Three([8, 7]).replica.forks[0], Three([8, 7, 9]).replica.forks[0];
    var two, three := f.agreements[0], g.agreements[0];
    assert !T.HasSigned(c, two, f.threshold[2]) && !C.SignedBy(c.env, two, 9) && 9 in f.threshold;
    forall k | 0 <= k < 3 ensures T.HasSigned(c, three, g.threshold[k]) {
      assert three.signatures[if k == 0 then 1 else if k == 1 then 0 else 2] == g.threshold[k];
    }
    forall a | a in g.threshold ensures exists i :: 0 <= i <= 0 && C.SignedBy(c.env, g.agreements[i], a) {
      assert a in three.signatures && c.env.Signer(three.block, a) == Some(a);
      assert C.SignedBy(c.env, g.agreements[0], a);
    }
  }
}
