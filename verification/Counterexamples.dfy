/** Concrete runs on which the client and the contract disagree: a channel that returns to its genesis state is misread,
    a repeated participant is miscounted, and newer-state evidence is misjudged. They show that the conditions of the
    theorems are met by honest replicas. */
module Counterexamples {
  import opened Types
  import opened Storage
  import D = DisputeRules
  import DR = DisputeRuns
  import opened ReplicaRules
  import R = ReplicaRuns
  import J = JointRuns
  import JT = JointTheorems
  import C = Certificates
  import P = ProofManager

  /** A machine that toggles between [0] and [1]. Every turn belongs to participant 8; a signature is
      its signer's address. */
  function Toggle(participants: seq<Address>): Env {
    Env(words => if words == [] then -1 else words[0],
        (block: Block) => block.Height(),
        (join: JoinChannel) => 0,
        (join: SignedJoinChannel) => 0,
        (hash, signature) => Some(signature),
        (words, tx: Transaction) => Some(if words == [0] then [1] else [0]),
        words => participants,
        words => 8,
        (words, join: JoinChannel) => Ok((false, words)),
        (words, a) => Ok(Removal(false, NO_EXIT, words)),
        (words, a) => Ok(Removal(false, NO_EXIT, words)),
        (join: JoinChannel) => true)
  }

  const TIMES := Times(10, 1, 1, 1)

  function Observer(me: Address, participants: seq<Address>): Client {
    Client(Toggle(participants), me, hash => me, 1, TIMES)
  }

  /** Participant 8's blocks: block `height` toggles the state, ten seconds after the one before. */
  function ToggleBlock(height: nat): SignedBlock {
    SignedBlock(Block(Transaction(Header(1, 8, 0, height, 110 + 10 * height), []), (height + 1) % 2, height % 2), 8)
  }

  function Alone(): seq<R.Step> {
    [R.StateSet([0], 0, 100), R.Play([], 110), R.Play([], 120)]
  }

  /** Participant 8's fork after `n` blocks of its own; its address stands in the threshold as often as in the list of
      participants. */
  function AloneFork(participants: seq<Address>, n: nat): Fork
    requires n <= 2
  {
    Fork([0], participants, 100, [],
         [Agreement(ToggleBlock(0).block, [8], [1]), Agreement(ToggleBlock(1).block, [8], [0])][..n])
  }

  function AloneAfter(participants: seq<Address>, n: nat): R.Tracked
    requires n <= 2
  {
    R.Tracked(Replica([AloneFork(participants, n)], map[], {}, [n % 2]), map[])
  }

  lemma AlonePlays(participants: seq<Address>, n: nat)
    requires n < 2
    ensures R.Track(Observer(8, participants), AloneAfter(participants, n), R.Play([], 110 + 10 * n))
         == AloneAfter(participants, n + 1)
  {
    var c, before := Observer(8, participants), AloneAfter(participants, n);
    var next := AloneFork(participants, 2).agreements[n];
    assert PlayTransaction(c, before.replica, [], 110 + 10 * n)
        == Result(AddBlock(before.replica.(machine := next.state), next.block, 8, next.state).value, Success);
    assert AloneFork(participants, n).agreements + [next] == AloneFork(participants, n + 1).agreements;
  }

  lemma AloneStarts(participants: seq<Address>)
    ensures var c := Observer(8, participants);
            R.Track(c, R.Run(c, [0], []), R.StateSet([0], 0, 100)) == AloneAfter(participants, 0)
  {}

  lemma RunTo(c: Client, machine: Bytes, steps: seq<R.Step>, n: nat, before: R.Tracked, after: R.Tracked)
    requires n < |steps| && R.Run(c, machine, steps[..n]) == before && R.Track(c, before, steps[n]) == after
    ensures R.Run(c, machine, steps[..n + 1]) == after
  {
    assert steps[..n + 1][..n] == steps[..n];
  }

  lemma {:induction false} AloneRun(participants: seq<Address>, n: nat)
    requires n <= 2
    ensures R.Run(Observer(8, participants), [0], Alone()[..n + 1]) == AloneAfter(participants, n)
  {
    var c, steps := Observer(8, participants), Alone();
    if n == 0 {
      AloneStarts(participants);
      RunTo(c, [0], steps, 0, R.Run(c, [0], []), AloneAfter(participants, 0));
    } else {
      AloneRun(participants, n - 1);
      AlonePlays(participants, n - 1);
      RunTo(c, [0], steps, n, AloneAfter(participants, n - 1), AloneAfter(participants, n));
    }
  }

  lemma AloneLooksLikeGenesis()
    ensures C.LooksLikeGenesis(Toggle([8]), AloneFork([8], 2), 8)
    ensures C.LatestSigned(Toggle([8]), AloneFork([8], 2).agreements, 8, 2) == 1
  {
    var env, f := Toggle([8]), AloneFork([8], 2);
    assert 8 in f.agreements[1].signatures && env.Signer(f.agreements[1].block, 8) == Some(8);
    assert C.SignedBy(env, f.agreements[1], 8);
    assert C.Covers(env, f, 1, 1) by {
      forall a | a in f.threshold ensures exists i :: 1 <= i <= 1 && C.SignedBy(env, f.agreements[i], a) {
        assert C.SignedBy(env, f.agreements[1], a);
      }
    }
  }

  /** A lone participant plays twice and is back at genesis; the contract reverts on its certificate. */
  lemma CertificateRefused()
    ensures var c, f := Observer(8, [8]), AloneFork([8], 2);
            var best := C.BestCertificate(c.env, f, 8);
            && c.OwnsSigner() && R.Run(c, [0], Alone()).replica.forks == [f]
            && C.LooksLikeGenesis(c.env, f, 8)
            && D.FinalizedAndLatest(c.env, DR.Opened(1, TIMES, 100, [0]), 0, best.finalized, best.latest, best.votes,
                                    [8]) == Revert
  {
    var c := Observer(8, [8]);
    AloneRun([8], 2);
    assert Alone()[..3] == Alone();
    assert AloneAfter([8], 2).replica.forks == [AloneFork([8], 2)];
    AloneLooksLikeGenesis();
    C.CertificateCompleteness(c, [0], Alone(), DR.Opened(1, TIMES, 100, [0]), 0, 8);
  }

  /** In a channel opened for the participants 8 and 8, the first block of 8 has a certificate that the contract does
      not misread, but refuses: it counts one voter where it wants two. */
  lemma RepeatedThresholdFails()
    ensures var c, f := Observer(8, [8, 8]), AloneFork([8, 8], 1);
            var best := C.BestCertificate(c.env, f, 8);
            && c.OwnsSigner() && R.Run(c, [0], Alone()[..2]).replica.forks == [f]
            && !C.LooksLikeGenesis(c.env, f, 8) && !C.OnGenesis(c.env, f, 8) && !Distinct(f.threshold)
            && D.FinalizedAndLatest(c.env, DR.Opened(1, TIMES, 100, [0]), 0, best.finalized, best.latest, best.votes,
                                    [8, 8])
               == Ok(false)
  {
    var c, f := Observer(8, [8, 8]), AloneFork([8, 8], 1);
    AloneRun([8, 8], 1);
    assert AloneAfter([8, 8], 1).replica.forks == [f];
    assert 8 in f.agreements[0].signatures && C.SignedBy(c.env, f.agreements[0], 8);
    assert C.Covers(c.env, f, 0, 0);
    assert f.threshold[0] == f.threshold[1];
    C.CertificateCompleteness(c, [0], Alone()[..2], DR.Opened(1, TIMES, 100, [0]), 0, 8);
  }

  // ---------- an accepted block is slashed ----------

  function Arrives(height: nat): J.Move {
    J.Local(R.SignedBlockArrives(ToggleBlock(height), 110 + 10 * height, 0))
  }

  function Watched(): seq<J.Move> { [J.Local(R.StateSet([0], 0, 100)), Arrives(0), Arrives(1)] }

  /** The channel just opened, watched by participant 7, after `n` blocks of participant 8. */
  function WatchedAfter(n: nat): J.World
    requires n <= 2
  {
    var agreements := [Agreement(ToggleBlock(0).block, [8, 7], [1]), Agreement(ToggleBlock(1).block, [8, 7], [0])];
    J.World(DR.Opened(1, TIMES, 100, [0]),
            R.Tracked(Replica([Fork([0], [7, 8], 100, [], agreements[..n])], map[], {}, [n % 2]), map[]),
            [([0], 0, 100)], [])
  }

  lemma WatchedStarts()
    ensures var c := Observer(7, [7, 8]); J.Next(c, J.Start(c, 100, [0], [0]), Watched()[0]) == WatchedAfter(0)
  {}

  /** The fork of WatchedAfter(n), and the same with the next block before the observer confirmed it. */
  function WatchedFork(n: nat): Fork
    requires n <= 2
  {
    WatchedAfter(n).client.replica.forks[0]
  }

  function Unconfirmed(n: nat): Replica
    requires n <= 2
  {
    var f := WatchedFork(n);
    Replica([f.(agreements := f.agreements + [Agreement(ToggleBlock(n).block, [8], [(n + 1) % 2])])], map[], {},
            [(n + 1) % 2])
  }

  lemma WatchedTime(n: nat)
    requires n <= 2
    ensures WatchedFork(n).LatestBlockTimestamp() == 100 + 10 * n
    ensures GoodTimestamp(Observer(7, [7, 8]), WatchedFork(n), ToggleBlock(n).block, 0)
  {}

  lemma WatchedExecutes(n: nat)
    requires n <= 2
    ensures ProcessStateTransition(Observer(7, [7, 8]), WatchedAfter(n).client.replica, ToggleBlock(n))
            == Result(Unconfirmed(n), Success)
  {}

  lemma WatchedAccepts(n: nat)
    requires n <= 2
    ensures ValidateSignedBlock(Observer(7, [7, 8]), WatchedAfter(n).client.replica, ToggleBlock(n), 110 + 10 * n, 0)
         == Result(Unconfirmed(n), Success)
  {
    var c, r, signed := Observer(7, [7, 8]), WatchedAfter(n).client.replica, ToggleBlock(n);
    WatchedTime(n);
    WatchedExecutes(n);
  }

  lemma WatchedConfirms(n: nat)
    requires n < 2
    ensures ConfirmBlock(Unconfirmed(n), ToggleBlock(n).block, 7) == Some(WatchedAfter(n + 1).client.replica)
  {
    var r, g := Unconfirmed(n), WatchedFork(n + 1);
    var a := r.AgreementAt(0, n);
    assert [8] + [7] == [8, 7];
    assert a.(signatures := a.signatures + [7]) == g.agreements[n];
    assert r.forks[0].agreements[n := g.agreements[n]] == g.agreements;
    assert r.forks[0 := g] == [g];
  }

  lemma WatchedArrives(n: nat)
    requires n < 2
    ensures J.Next(Observer(7, [7, 8]), WatchedAfter(n), Arrives(n)) == WatchedAfter(n + 1)
  {
    var c, before, signed := Observer(7, [7, 8]), WatchedAfter(n), ToggleBlock(n);
    WatchedAccepts(n);
    WatchedConfirms(n);
    assert OnSignedBlock(c, before.client.replica, signed, 110 + 10 * n, 0)
           == Result(WatchedAfter(n + 1).client.replica, Success);
  }

  lemma JointRunTo(c: Client, w: J.World, moves: seq<J.Move>, n: nat, before: J.World, after: J.World)
    requires n < |moves| && J.Run(c, w, moves[..n]) == before && J.Next(c, before, moves[n]) == after
    ensures J.Run(c, w, moves[..n + 1]) == after
  {
    assert moves[..n + 1][..n] == moves[..n];
  }

  lemma {:induction false} WatchedRun(n: nat)
    requires n <= 2
    ensures var c := Observer(7, [7, 8]); J.Run(c, J.Start(c, 100, [0], [0]), Watched()[..n + 1]) == WatchedAfter(n)
  {
    var c, start := Observer(7, [7, 8]), J.Start(Observer(7, [7, 8]), 100, [0], [0]);
    if n == 0 {
      WatchedStarts();
      JointRunTo(c, start, Watched(), 0, start, WatchedAfter(0));
    } else {
      WatchedRun(n - 1);
      WatchedArrives(n - 1);
      JointRunTo(c, start, Watched(), n, WatchedAfter(n - 1), WatchedAfter(n));
    }
  }

  lemma WatchedHolds()
    ensures var c := Observer(7, [7, 8]);
            J.Run(c, J.Start(c, 100, [0], [0]), Watched()) == WatchedAfter(2) && J.Invariant(c, WatchedAfter(2))
  {
    var c := Observer(7, [7, 8]);
    WatchedRun(2);
    assert Watched()[..3] == Watched();
    J.StartHolds(c, 100, [0], [0]);
    J.RunKeeps(c, J.Start(c, 100, [0], [0]), Watched());
  }

  /** On that run participant 8 is back at genesis, and plays once more, in time. The client accepts the block,
      and the contract slashes its author on the true predecessor and the true pre-state. */
  lemma AcceptedBlockSlashed(d: Dispute)
    requires d.channelId == 1 && d.forkCnt == 0
    ensures var c, w := Observer(7, [7, 8]), WatchedAfter(2);
            var applied := D.ApplyIncorrectData(c.env, w.chain, d, ToggleBlock(1), ToggleBlock(2),
                                                w.client.replica.machine);
            && J.Run(c, J.Start(c, 100, [0], [0]), Watched()) == w && J.Invariant(c, w)
            && ValidateSignedBlock(c, w.client.replica, ToggleBlock(2), 130, w.chain.LatestPosted(0, 2)).verdict
               == Success
            && JT.MistakenForGenesis(c.env, w.chain, ToggleBlock(2).block, w.client.replica.machine)
            && applied.Ok? && 8 in applied.value.dispute.slashed
  {
    var c, w := Observer(7, [7, 8]), WatchedAfter(2);
    WatchedHolds();
    WatchedAccepts(2);
    assert JT.MistakenForGenesis(c.env, w.chain, ToggleBlock(2).block, w.client.replica.machine);
    JT.AcceptedBlocksAreImmune(c, w, ToggleBlock(2), 130, [], d, ToggleBlock(1));
  }

  // ---------- newer-state evidence ----------

  lemma WatchedSigns()
    ensures var env, f := Toggle([7, 8]), WatchedFork(2);
            P.CreateNewerStateProof(env, WatchedAfter(2).client.replica, 0, 7, 0)
            == Some(D.NewerState(ToggleBlock(1).block, 7))
  {
    var env, f := Toggle([7, 8]), WatchedFork(2);
    var last := f.agreements[1];
    assert last.signatures[1..] == [7];
    assert P.ParticipantSignature(env, last.block, [7], 7) == Some(7);
    assert P.ParticipantSignature(env, last.block, last.signatures, 7) == Some(7);
    assert P.LatestSignedBlock(env, f.agreements, 7) == Some(SignedBlock(last.block, 7));
  }

  lemma ConfirmedBlockIsMisjudged(d: Dispute)
    requires d.channelId == 1 && d.forkCnt == 0 && d.slashed == []
    requires d.votes == [ConfirmedBlock(ToggleBlock(0).block, [8, 7])]
    ensures var env, made := Toggle([7, 8]), D.NewerState(ToggleBlock(1).block, 7);
            && (d.postedStateDisputer == 8 ==>
                  P.IsNewerStateValid(made, d) && D.ApplyNewerState(env, d, made.newer, made.confirmation) == Revert)
            && (d.postedStateDisputer == 7 ==> !P.IsNewerStateValid(made, d) && P.NewerStateSlashes(env, made, d))
  {}

  /** On the same run the observer, 7, has itself signed a block above the first one, as a confirmation of a block by 8.
      The evidence of that is kept in a dispute posted by 8, where it reverts, and dropped in one posted by 7, where it
      would slash. */
  lemma NewerStateMisjudged(d: Dispute)
    requires d.channelId == 1 && d.forkCnt == 0 && d.slashed == []
    requires d.votes == [ConfirmedBlock(ToggleBlock(0).block, [8, 7])]
    ensures var c, w := Observer(7, [7, 8]), WatchedAfter(2);
            var made := P.CreateNewerStateProof(c.env, w.client.replica, 0, 7, 0);
            && J.Run(c, J.Start(c, 100, [0], [0]), Watched()) == w
            && made.Some? && made.value.NewerState?
            && (d.postedStateDisputer == 8 ==>
                  && P.IsNewerStateValid(made.value, d)
                  && D.ApplyNewerState(c.env, d, made.value.newer, made.value.confirmation) == Revert)
            && (d.postedStateDisputer == 7 ==>
                  && !P.IsNewerStateValid(made.value, d)
                  && P.NewerStateSlashes(c.env, made.value, d))
  {
    WatchedHolds();
    WatchedSigns();
    ConfirmedBlockIsMisjudged(d);
  }
}
