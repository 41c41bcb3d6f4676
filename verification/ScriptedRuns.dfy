/** A client and one other participant that play a given list of moves, on any machine. */
module ScriptedRuns {
  import opened Types
  import D = DisputeRules
  import DR = DisputeRuns
  import opened ReplicaRules
  import opened ReplicaRuns
  import C = Certificates

  /** The moves, who makes them, and the states they lead through. */
  datatype Script = Script(states: seq<Bytes>, authors: seq<Address>, bodies: seq<Bytes>) {
    predicate Shaped() { |states| == |authors| + 1 && |bodies| == |authors| }
  }

  /** The channel opens at time 100, and a second later every second brings a move. */
  function MoveTx(c: Client, s: Script, n: nat): Transaction
    requires s.Shaped() && n < |s.authors|
  {
    Transaction(Header(c.channelId, s.authors[n], 0, n, 101 + n), s.bodies[n])
  }

  function MoveBlock(c: Client, s: Script, n: nat): Block
    requires s.Shaped() && n < |s.authors|
  {
    Block(MoveTx(c, s, n), c.env.keccak(s.states[n + 1]), c.env.keccak(s.states[n]))
  }

  predicate LegalMove(c: Client, other: Address, s: Script, n: nat)
    requires s.Shaped() && n < |s.authors|
  {
    && (s.authors[n] == c.me || s.authors[n] == other)
    && c.env.step(s.states[n], MoveTx(c, s, n)) == Some(s.states[n + 1])
    && c.env.nextToWrite(s.states[n]) == s.authors[n]
  }

  /** The machine allows the script; the client and the other sign for themselves. */
  ghost predicate Legal(c: Client, other: Address, theirs: Hash -> Signature, s: Script) {
    && c.OwnsSigner() && other != c.me && (forall h :: c.env.recover(h, theirs(h)) == Some(other))
    && c.times.p2p >= 1
    && s.Shaped() && c.env.participants(s.states[0]) == [c.me, other]
    && forall n: nat :: n < |s.authors| ==> LegalMove(c, other, s, n)
  }

  function MoveAgreement(c: Client, theirs: Hash -> Signature, s: Script, n: nat): Agreement
    requires s.Shaped() && n < |s.authors|
  {
    var block := MoveBlock(c, s, n);
    var mine := c.MySignature(block);
    Agreement(block, if s.authors[n] == c.me then [mine] else [theirs(c.env.blockHash(block)), mine], s.states[n + 1])
  }

  function ForkAfter(c: Client, other: Address, theirs: Hash -> Signature, s: Script, n: nat): Fork
    requires s.Shaped() && n <= |s.authors|
  {
    Fork(s.states[0], [c.me, other], 100, [], seq(n, i requires 0 <= i < n => MoveAgreement(c, theirs, s, i)))
  }

  function After(c: Client, other: Address, theirs: Hash -> Signature, s: Script, n: nat): Tracked
    requires s.Shaped() && n <= |s.authors|
  {
    Tracked(Replica([ForkAfter(c, other, theirs, s, n)], map[], {}, s.states[n]), map[])
  }

  function MoveStep(c: Client, theirs: Hash -> Signature, s: Script, n: nat): Step
    requires s.Shaped() && n < |s.authors|
  {
    var block := MoveBlock(c, s, n);
    if s.authors[n] == c.me then Play(s.bodies[n], 101 + n)
    else SignedBlockArrives(SignedBlock(block, theirs(c.env.blockHash(block))), 101 + n, 0)
  }

  function ScriptSteps(c: Client, theirs: Hash -> Signature, s: Script): seq<Step>
    requires s.Shaped()
  {
    [StateSet(s.states[0], 0, 100)] + seq(|s.authors|, i requires 0 <= i < |s.authors| => MoveStep(c, theirs, s, i))
  }

  // ---------- one move ----------

  lemma ForkFacts(c: Client, other: Address, theirs: Hash -> Signature, s: Script, n: nat)
    requires s.Shaped() && n < |s.authors|
    ensures var f, g := ForkAfter(c, other, theirs, s, n), ForkAfter(c, other, theirs, s, n + 1);
            && f.LatestBlockTimestamp() == 100 + n
            && g == f.(agreements := f.agreements + [MoveAgreement(c, theirs, s, n)])
  {
    var f, g := ForkAfter(c, other, theirs, s, n), ForkAfter(c, other, theirs, s, n + 1);
    assert g.agreements == f.agreements + [MoveAgreement(c, theirs, s, n)];
  }

  lemma OwnMove(c: Client, other: Address, theirs: Hash -> Signature, s: Script, n: nat)
    requires Legal(c, other, theirs, s) && n < |s.authors| && s.authors[n] == c.me
    ensures PlayTransaction(c, After(c, other, theirs, s, n).replica, s.bodies[n], 101 + n)
         == Result(After(c, other, theirs, s, n + 1).replica, Success)
  {
    var r := After(c, other, theirs, s, n).replica;
    assert LegalMove(c, other, s, n);
    ForkFacts(c, other, theirs, s, n);
    assert OwnTransaction(c, r, s.bodies[n], 101 + n) == MoveTx(c, s, n);
    assert OwnBlock(c, r, s.bodies[n], 101 + n) == MoveBlock(c, s, n);
  }

  /** The replica with the other's block before the client has confirmed it. */
  function Unsigned(c: Client, other: Address, theirs: Hash -> Signature, s: Script, n: nat): Replica
    requires s.Shaped() && n < |s.authors|
  {
    var f, block := ForkAfter(c, other, theirs, s, n), MoveBlock(c, s, n);
    var next := Agreement(block, [theirs(c.env.blockHash(block))], s.states[n + 1]);
    Replica([f.(agreements := f.agreements + [next])], map[], {}, s.states[n + 1])
  }

  lemma OtherMoveIsAccepted(c: Client, other: Address, theirs: Hash -> Signature, s: Script, n: nat)
    requires Legal(c, other, theirs, s) && n < |s.authors| && s.authors[n] == other
    ensures var block := MoveBlock(c, s, n);
            ValidateSignedBlock(c, After(c, other, theirs, s, n).replica,
                                SignedBlock(block, theirs(c.env.blockHash(block))), 101 + n, 0) ==
            Result(Unsigned(c, other, theirs, s, n), Success)
  {
    var r, block := After(c, other, theirs, s, n).replica, MoveBlock(c, s, n);
    var h := c.env.blockHash(block);
    var signed := SignedBlock(block, theirs(h));
    assert LegalMove(c, other, s, n) && c.env.recover(h, theirs(h)) == Some(other);
    ForkFacts(c, other, theirs, s, n);
    assert ProcessStateTransition(c, r, signed) == Result(Unsigned(c, other, theirs, s, n), Success);
    assert GoodTimestamp(c, r.forks[0], block, 0);
  }

  lemma OtherMoveIsConfirmed(c: Client, other: Address, theirs: Hash -> Signature, s: Script, n: nat)
    requires Legal(c, other, theirs, s) && n < |s.authors| && s.authors[n] == other
    ensures var block := MoveBlock(c, s, n);
            ConfirmBlock(Unsigned(c, other, theirs, s, n), block, c.MySignature(block)) ==
            Some(After(c, other, theirs, s, n + 1).replica)
  {
    var r, g := Unsigned(c, other, theirs, s, n), ForkAfter(c, other, theirs, s, n + 1);
    var block, h := MoveBlock(c, s, n), c.env.blockHash(MoveBlock(c, s, n));
    ForkFacts(c, other, theirs, s, n);
    c.MySignatureIsMine(block);
    assert c.env.recover(h, theirs(h)) == Some(other);
    assert [theirs(h)] + [c.MySignature(block)] == MoveAgreement(c, theirs, s, n).signatures;
    assert r.forks[0].agreements[n := MoveAgreement(c, theirs, s, n)] == g.agreements;
    assert r.forks[0 := g] == [g];
  }

  lemma MoveTracks(c: Client, other: Address, theirs: Hash -> Signature, s: Script, n: nat)
    requires Legal(c, other, theirs, s) && n < |s.authors|
    ensures Track(c, After(c, other, theirs, s, n), MoveStep(c, theirs, s, n)) == After(c, other, theirs, s, n + 1)
  {
    assert LegalMove(c, other, s, n);
    if s.authors[n] == c.me {
      OwnMove(c, other, theirs, s, n);
    } else {
      OtherMoveIsAccepted(c, other, theirs, s, n);
      OtherMoveIsConfirmed(c, other, theirs, s, n);
    }
  }

  // ---------- the whole script ----------

  /** The client takes part in every legal script. */
  lemma {:induction false} ScriptRuns(c: Client, other: Address, theirs: Hash -> Signature, s: Script, n: nat)
    requires Legal(c, other, theirs, s) && n <= |s.authors|
    ensures Run(c, [], ScriptSteps(c, theirs, s)[..n + 1]) == After(c, other, theirs, s, n)
  {
    var steps := ScriptSteps(c, theirs, s);
    if n == 0 {
      assert steps[..1][..0] == [];
      assert ForkAfter(c, other, theirs, s, 0).agreements == [];
    } else {
      ScriptRuns(c, other, theirs, s, n - 1);
      MoveTracks(c, other, theirs, s, n - 1);
      assert steps[..n + 1][..n] == steps[..n] && steps[n] == MoveStep(c, theirs, s, n - 1);
    }
  }

  lemma EndLooksLikeGenesis(c: Client, other: Address, theirs: Hash -> Signature, s: Script)
    requires Legal(c, other, theirs, s) && s.authors != [] && s.authors[|s.authors| - 1] == other
    requires var m := |s.authors| - 1;
             c.env.keccak(s.states[m]) != c.env.keccak(s.states[0]) == c.env.keccak(s.states[m + 1])
    ensures var f := ForkAfter(c, other, theirs, s, |s.authors|);
            && C.LooksLikeGenesis(c.env, f, c.me)
            && C.LatestSigned(c.env, f.agreements, c.me, |f.agreements|) == |s.authors| - 1
  {
    var f, m := ForkAfter(c, other, theirs, s, |s.authors|), |s.authors| - 1;
    var last, block := f.agreements[m], MoveBlock(c, s, m);
    var h := c.env.blockHash(block);
    assert last == MoveAgreement(c, theirs, s, m);
    c.MySignatureIsMine(block);
    assert c.env.recover(h, theirs(h)) == Some(other);
    assert theirs(h) in last.signatures && c.MySignature(block) in last.signatures;
    assert c.env.Signer(last.block, theirs(h)) == Some(other);
    assert C.SignedBy(c.env, last, c.me) && C.SignedBy(c.env, last, other);
    assert C.Covers(c.env, f, m, m) by {
      forall a | a in f.threshold ensures exists i :: m <= i <= m && C.SignedBy(c.env, f.agreements[i], a) {
        assert C.SignedBy(c.env, f.agreements[m], a);
      }
    }
  }

  /** On any machine: when a move of the other brings the channel back to its genesis state, and not from there, the
      contract reverts on the client's certificate. */
  lemma ReturnIsRefused(c: Client, other: Address, theirs: Hash -> Signature, s: Script)
    requires Legal(c, other, theirs, s) && s.authors != [] && s.authors[|s.authors| - 1] == other
    requires var m := |s.authors| - 1;
             c.env.keccak(s.states[m]) != c.env.keccak(s.states[0]) == c.env.keccak(s.states[m + 1])
    ensures var f := ForkAfter(c, other, theirs, s, |s.authors|);
            var best := C.BestCertificate(c.env, f, c.me);
            && Run(c, [], ScriptSteps(c, theirs, s)).replica.forks == [f]
            && D.FinalizedAndLatest(c.env, DR.Opened(c.channelId, c.times, 100, s.states[0]), 0, best.finalized,
                                    best.latest, best.votes, [c.me, other]) == Revert
  {
    ScriptRuns(c, other, theirs, s, |s.authors|);
    assert ScriptSteps(c, theirs, s)[..|s.authors| + 1] == ScriptSteps(c, theirs, s);
    EndLooksLikeGenesis(c, other, theirs, s);
    C.CertificateCompleteness(c, [], ScriptSteps(c, theirs, s), DR.Opened(c.channelId, c.times, 100, s.states[0]), 0,
                              c.me);
  }
}
