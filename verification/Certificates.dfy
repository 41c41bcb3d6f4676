/** The finality certificate from both ends: AgreementManager.getFinalizedAndLatestWithVotes makes it,
    DisputeManagerFacet.isFinalizedAndLatest judges it. */
module Certificates {
  import opened Types
  import opened Storage
  import opened DisputeRules
  import opened ReplicaRules
  import opened ReplicaRuns

  // ---------- making it ----------

  predicate SignedBy(env: Env, a: Agreement, p: Address) { env.Signs(a.block, a.signatures, p) }

  /** The highest agreement below `n` signed by `p`; -1 when there is none. */
  function LatestSigned(env: Env, agreements: seq<Agreement>, p: Address, n: nat): (m: int)
    requires n <= |agreements|
    ensures -1 <= m < n
    ensures m >= 0 ==> SignedBy(env, agreements[m], p)
    ensures forall i :: m < i < n ==> !SignedBy(env, agreements[i], p)
  {
    if n == 0 then -1
    else if SignedBy(env, agreements[n - 1], p) then n - 1
    else LatestSigned(env, agreements, p, n - 1)
  }

  /** Agreements k..m, between them, carry a signature of every threshold address. */
  predicate Covers(env: Env, f: Fork, k: nat, m: nat)
    requires m < |f.agreements|
  {
    forall a <- f.threshold :: exists i :: k <= i <= m && SignedBy(env, f.agreements[i], a)
  }

  /** The highest k at most `n` from which the agreements up to m cover the threshold; -1 when there is none. */
  function FinalityIndex(env: Env, f: Fork, m: nat, n: int): (k: int)
    requires m < |f.agreements| && -1 <= n <= m
    ensures -1 <= k <= n
    ensures k >= 0 ==> Covers(env, f, k, m)
    ensures forall i: nat :: k < i <= n ==> !Covers(env, f, i, m)
  {
    if n < 0 then -1 else if Covers(env, f, n, m) then n else FinalityIndex(env, f, m, n - 1)
  }

  function Votes(agreements: seq<Agreement>): seq<ConfirmedBlock> {
    seq(|agreements|, i requires 0 <= i < |agreements| => ConfirmedBlock(agreements[i].block, agreements[i].signatures))
  }

  datatype Certificate = Certificate(finalized: Bytes, latest: Bytes, votes: seq<ConfirmedBlock>)

  /** The certificate the backward loop returns, in terms of the two indices it looks for. */
  function BestCertificate(env: Env, f: Fork, p: Address): Certificate {
    var m := LatestSigned(env, f.agreements, p, |f.agreements|);
    if m < 0 then Certificate(f.genesis, f.genesis, [])
    else
      var k := FinalityIndex(env, f, m, m);
      if k < 0 then Certificate(f.genesis, f.agreements[m].state, Votes(f.agreements[..m + 1]))
      else Certificate(f.agreements[k].state, f.agreements[m].state, Votes(f.agreements[k..m + 1]))
  }

  /** The last vote of the best certificate is the latest block its signer signed. */
  lemma LastVote(env: Env, f: Fork, p: Address)
    ensures var best, m := BestCertificate(env, f, p), LatestSigned(env, f.agreements, p, |f.agreements|);
            && best.latest == f.StateAfter(m + 1)
            && (m < 0 <==> best.votes == [])
            && (m >= 0 ==> best.votes[|best.votes| - 1]
                             == ConfirmedBlock(f.agreements[m].block, f.agreements[m].signatures))
  {}

  // ---------- it is accepted ----------

  /** The client's fork as the contract stores it: the same genesis, and the threshold read from it. */
  ghost predicate Mirrors(env: Env, c: Chain, fork: nat, f: Fork) {
    c.StateOf(fork) == f.genesis && f.threshold == env.participants(f.genesis)
  }

  /** Vote `j` is agreement `k + j` of the fork, as the contract judges it. */
  ghost predicate IsStep(client: Client, f: Fork, fork: nat, k: nat, votes: seq<ConfirmedBlock>, j: nat)
    requires j < |votes| && k + j < |f.agreements|
  {
    && WellSigned(client.env, client.channelId, fork, votes[j])
    && votes[j].block.stateHash == client.env.keccak(f.StateAfter(k + j + 1))
    && votes[j].block.previousStateHash == client.env.keccak(f.StateAfter(k + j))
  }

  lemma VoteIsStep(client: Client, f: Fork, fork: nat, sound: nat, k: nat, m: nat, j: nat)
    requires ForkSound(client, f, fork, sound) && k + j <= m < sound
    ensures IsStep(client, f, fork, k, Votes(f.agreements[k..m + 1]), j)
  {
    var a := f.agreements[k + j];
    assert Authenticated(client, fork, k + j, a) && Executed(client.env, f, k + j);
    assert a.signatures[0] in a.signatures;
  }

  lemma VotesAreSteps(client: Client, f: Fork, fork: nat, sound: nat, k: nat, m: nat, votes: seq<ConfirmedBlock>)
    requires ForkSound(client, f, fork, sound) && k <= m < sound && votes == Votes(f.agreements[k..m + 1])
    ensures forall j :: 0 <= j < |votes| ==> IsStep(client, f, fork, k, votes, j)
  {
    forall j | 0 <= j < |votes| ensures IsStep(client, f, fork, k, votes, j) {
      VoteIsStep(client, f, fork, sound, k, m, j);
    }
  }

  lemma StepsAreLinked(client: Client, f: Fork, fork: nat, k: nat, votes: seq<ConfirmedBlock>)
    requires votes != [] && k + |votes| <= |f.agreements|
    requires forall j :: 0 <= j < |votes| ==> IsStep(client, f, fork, k, votes, j)
    ensures forall j :: 0 <= j < |votes| ==> WellSigned(client.env, client.channelId, fork, votes[j])
    ensures forall j :: 0 < j < |votes| ==> votes[j - 1].block.stateHash == votes[j].block.previousStateHash
    ensures votes[|votes| - 1].block.stateHash == client.env.keccak(f.StateAfter(k + |votes|))
  {
    forall j | 0 <= j < |votes|
      ensures WellSigned(client.env, client.channelId, fork, votes[j])
      ensures j > 0 ==> votes[j - 1].block.stateHash == votes[j].block.previousStateHash
    {
      assert IsStep(client, f, fork, k, votes, j);
      assert j > 0 ==> IsStep(client, f, fork, k, votes, j - 1);
    }
    assert IsStep(client, f, fork, k, votes, |votes| - 1);
  }

  /** When every vote is well signed and every later link holds, the verdict hangs on the first link and on
      who signed. */
  lemma VerdictByFirst(env: Env, c: Chain, fork: nat, finalized: Bytes, latest: Bytes, votes: seq<ConfirmedBlock>,
                       threshold: seq<Address>)
    requires votes != [] && votes[|votes| - 1].block.stateHash == env.keccak(latest)
    requires forall i :: 0 <= i < |votes| ==> WellSigned(env, c.channelId, fork, votes[i])
    requires forall i :: 0 < i < |votes| ==> votes[i - 1].block.stateHash == votes[i].block.previousStateHash
    ensures var isGenesis := c.IsGenesisState(env, fork, finalized);
            FinalizedAndLatest(env, c, fork, finalized, latest, votes, threshold) ==
            if env.keccak(finalized)
               == (if isGenesis then votes[0].block.previousStateHash else votes[0].block.stateHash)
            then Ok(isGenesis || |Voters(env, votes, threshold)| == |threshold|) else Revert
  {}

  /** The contract's verdict on votes k..m of a fork. */
  lemma SliceVerdict(client: Client, c: Chain, f: Fork, fork: nat, sound: nat, k: nat, m: nat, finalized: Bytes)
    requires ForkSound(client, f, fork, sound) && k <= m < sound && c.channelId == client.channelId
    ensures var env, first := client.env, f.agreements[k].block;
            var votes, isGenesis := Votes(f.agreements[k..m + 1]), c.IsGenesisState(env, fork, finalized);
            FinalizedAndLatest(env, c, fork, finalized, f.agreements[m].state, votes, f.threshold) ==
            if env.keccak(finalized) == (if isGenesis then first.previousStateHash else first.stateHash)
            then Ok(isGenesis || |Voters(env, votes, f.threshold)| == |f.threshold|) else Revert
  {
    var votes := Votes(f.agreements[k..m + 1]);
    VotesAreSteps(client, f, fork, sound, k, m, votes);
    StepsAreLinked(client, f, fork, k, votes);
    VerdictByFirst(client.env, c, fork, finalized, f.agreements[m].state, votes, f.threshold);
  }

  lemma CoveredVoters(env: Env, f: Fork, k: nat, m: nat)
    requires k <= m < |f.agreements| && Covers(env, f, k, m)
    ensures |Voters(env, Votes(f.agreements[k..m + 1]), f.threshold)| == |f.threshold| <==> Distinct(f.threshold)
  {
    var votes := Votes(f.agreements[k..m + 1]);
    var voters := Voters(env, votes, f.threshold);
    forall a | a in f.threshold ensures a in voters {
      var i :| k <= i <= m && SignedBy(env, f.agreements[i], a);
      assert votes[i - k] in votes;
    }
    assert voters == SetOf(f.threshold);
    if Distinct(f.threshold) { DistinctCardinality(f.threshold); }
    if |voters| == |f.threshold| { CardinalityDistinct(f.threshold); }
  }

  /** When the contract misreads the certificate: the finalized state found in the chain has the hash of the
      genesis state, and the block that reached it was not played on a state with that hash. */
  predicate LooksLikeGenesis(env: Env, f: Fork, p: Address) {
    var m := LatestSigned(env, f.agreements, p, |f.agreements|);
    m >= 0 &&
    var k := FinalityIndex(env, f, m, m);
    && k >= 0
    && env.keccak(f.agreements[k].state) == env.keccak(f.genesis)
    && f.agreements[k].block.previousStateHash != env.keccak(f.genesis)
  }

  /** Whether the certificate stands on the genesis state or on one with its hash; the contract then does not
      count the voters. */
  predicate OnGenesis(env: Env, f: Fork, p: Address) {
    var m := LatestSigned(env, f.agreements, p, |f.agreements|);
    m < 0 ||
    var k := FinalityIndex(env, f, m, m);
    k < 0 || env.keccak(f.agreements[k].state) == env.keccak(f.genesis)
  }

  lemma EmptyCertificate(env: Env, c: Chain, f: Fork, fork: nat)
    requires Mirrors(env, c, fork, f)
    ensures FinalizedAndLatest(env, c, fork, f.genesis, f.genesis, [], f.threshold) == Ok(true)
  {}

  lemma GenesisCertificate(client: Client, c: Chain, f: Fork, fork: nat, sound: nat, m: nat)
    requires ForkSound(client, f, fork, sound) && m < sound && c.channelId == client.channelId
             && Mirrors(client.env, c, fork, f)
    ensures FinalizedAndLatest(client.env, c, fork, f.genesis, f.agreements[m].state, Votes(f.agreements[..m + 1]),
                               f.threshold) == Ok(true)
  {
    assert f.agreements[0..m + 1] == f.agreements[..m + 1];
    SliceVerdict(client, c, f, fork, sound, 0, m, f.genesis);
    VoteIsStep(client, f, fork, sound, 0, m, 0);
  }

  lemma FinalizedCertificate(client: Client, c: Chain, f: Fork, fork: nat, sound: nat, k: nat, m: nat)
    requires ForkSound(client, f, fork, sound) && k <= m < sound && c.channelId == client.channelId
             && Mirrors(client.env, c, fork, f)
    requires Covers(client.env, f, k, m)
    ensures var env := client.env;
            var again := env.keccak(f.agreements[k].state) == env.keccak(f.genesis);
            FinalizedAndLatest(env, c, fork, f.agreements[k].state, f.agreements[m].state,
                               Votes(f.agreements[k..m + 1]), f.threshold) ==
            if again && f.agreements[k].block.previousStateHash != env.keccak(f.genesis) then Revert
            else Ok(again || Distinct(f.threshold))
  {
    SliceVerdict(client, c, f, fork, sound, k, m, f.agreements[k].state);
    VoteIsStep(client, f, fork, sound, k, m, 0);
    CoveredVoters(client.env, f, k, m);
  }

  lemma ForkCertificate(client: Client, c: Chain, f: Fork, fork: nat, sound: nat, p: Address)
    requires ForkSound(client, f, fork, sound) && c.channelId == client.channelId && Mirrors(client.env, c, fork, f)
    requires LatestSigned(client.env, f.agreements, p, |f.agreements|) < sound
    ensures var best := BestCertificate(client.env, f, p);
            FinalizedAndLatest(client.env, c, fork, best.finalized, best.latest, best.votes, f.threshold) ==
            if LooksLikeGenesis(client.env, f, p) then Revert
            else Ok(OnGenesis(client.env, f, p) || Distinct(f.threshold))
  {
    var best, m := BestCertificate(client.env, f, p), LatestSigned(client.env, f.agreements, p, |f.agreements|);
    if m < 0 {
      assert best == Certificate(f.genesis, f.genesis, []);
      EmptyCertificate(client.env, c, f, fork);
    } else {
      var k := FinalityIndex(client.env, f, m, m);
      if k < 0 {
        assert best == Certificate(f.genesis, f.agreements[m].state, Votes(f.agreements[..m + 1]));
        GenesisCertificate(client, c, f, fork, sound, m);
      } else {
        assert best == Certificate(f.agreements[k].state, f.agreements[m].state, Votes(f.agreements[k..m + 1]));
        FinalizedCertificate(client, c, f, fork, sound, k, m);
      }
    }
  }

  /** Certificate completeness. On every run, for every fork and every signer whose latest signed block
      precedes the fork's first failed execution, the contract reverts on the client's certificate exactly
      when its finalized state looks like genesis; otherwise it accepts it, except that off genesis it also
      needs the threshold to be free of repeats. */
  lemma CertificateCompleteness(client: Client, machine: Bytes, steps: seq<Step>, c: Chain, fork: nat, p: Address)
    requires client.OwnsSigner() && c.channelId == client.channelId
    requires fork < |Run(client, machine, steps).replica.forks|
    requires c.StateOf(fork) == Run(client, machine, steps).replica.forks[fork].genesis
    requires var t := Run(client, machine, steps);
             var agreements := t.replica.forks[fork].agreements;
             LatestSigned(client.env, agreements, p, |agreements|) < t.Sound(fork)
    ensures var f := Run(client, machine, steps).replica.forks[fork];
            var best := BestCertificate(client.env, f, p);
            FinalizedAndLatest(client.env, c, fork, best.finalized, best.latest, best.votes,
                               client.env.participants(c.StateOf(fork))) ==
            if LooksLikeGenesis(client.env, f, p) then Revert
            else Ok(OnGenesis(client.env, f, p) || Distinct(f.threshold))
  {
    var t := Run(client, machine, steps);
    RunKeeps(client, machine, steps);
    assert ForkSound(client, t.replica.forks[fork], fork, t.Sound(fork));
    ForkCertificate(client, c, t.replica.forks[fork], fork, t.Sound(fork), p);
  }

  // ---------- the certificate is the best one ----------

  lemma {:induction false} LatestSignedIs(env: Env, agreements: seq<Agreement>, p: Address, n: nat, m: nat)
    requires m < n <= |agreements| && SignedBy(env, agreements[m], p)
    requires forall i :: m < i < n ==> !SignedBy(env, agreements[i], p)
    ensures LatestSigned(env, agreements, p, n) == m
  {
    if m < n - 1 { LatestSignedIs(env, agreements, p, n - 1, m); }
  }

  lemma {:induction false} FinalityIndexIs(env: Env, f: Fork, m: nat, n: int, k: int)
    requires m < |f.agreements| && -1 <= k <= n <= m
    requires k >= 0 ==> Covers(env, f, k, m)
    requires forall i: nat :: k < i <= n ==> !Covers(env, f, i, m)
    ensures FinalityIndex(env, f, m, n) == k
    decreases n + 1
  {
    if k < n { FinalityIndexIs(env, f, m, n - 1, k); }
  }

  /** Virtual-vote optimality: m is the highest block the signer signed, k the highest start from which the
      signers of k..m cover the threshold (-1 when there is none). The votes are exactly the blocks from k to m in
      order, and the genesis state stands in exactly when there is no such start. */
  lemma VirtualVoteOptimality(env: Env, f: Fork, p: Address, m: nat, k: int)
    requires m < |f.agreements| && SignedBy(env, f.agreements[m], p)
    requires forall i :: m < i < |f.agreements| ==> !SignedBy(env, f.agreements[i], p)
    requires -1 <= k <= m && (k >= 0 ==> Covers(env, f, k, m))
    requires forall i: nat :: k < i <= m ==> !Covers(env, f, i, m)
    ensures BestCertificate(env, f, p) ==
            if k < 0 then Certificate(f.genesis, f.agreements[m].state, Votes(f.agreements[..m + 1]))
            else Certificate(f.agreements[k].state, f.agreements[m].state, Votes(f.agreements[k..m + 1]))
  {
    LatestSignedIs(env, f.agreements, p, |f.agreements|, m);
    FinalityIndexIs(env, f, m, m, k);
  }

  /** A signer without a signed block, and a fork without blocks, stand on genesis with no votes. */
  lemma NothingSigned(env: Env, f: Fork, p: Address)
    ensures (forall i: nat :: i < |f.agreements| ==> !SignedBy(env, f.agreements[i], p)) <==>
            BestCertificate(env, f, p) == Certificate(f.genesis, f.genesis, [])
  {
    var m := LatestSigned(env, f.agreements, p, |f.agreements|);
    assert m < 0 <==> BestCertificate(env, f, p).votes == [];
  }

  // ---------- it means something ----------

  /** Certificate soundness. What the contract accepts on a non-empty list is an unbroken chain of state
      hashes from the finalized state (or genesis) to the latest one, each block signed by its author; off
      genesis, every threshold address signed some block, and no address stands twice in the threshold. */
  lemma CertificateSoundness(env: Env, c: Chain, fork: nat, finalized: Bytes, latest: Bytes,
                             votes: seq<ConfirmedBlock>, threshold: seq<Address>)
    requires votes != [] && FinalizedAndLatest(env, c, fork, finalized, latest, votes, threshold) == Ok(true)
    ensures forall i :: 0 <= i < |votes| ==>
              && votes[i].block.ChannelOf() == c.channelId && votes[i].block.Fork() == fork
              && env.Signs(votes[i].block, votes[i].signatures, votes[i].block.Author())
              && (i > 0 ==> votes[i].block.previousStateHash == votes[i - 1].block.stateHash)
    ensures votes[|votes| - 1].block.stateHash == env.keccak(latest)
    ensures env.keccak(finalized) == (if c.IsGenesisState(env, fork, finalized) then votes[0].block.previousStateHash
                                      else votes[0].block.stateHash)
    ensures !c.IsGenesisState(env, fork, finalized) ==>
              && Distinct(threshold)
              && forall a <- threshold :: exists vote <- votes :: env.Signs(vote.block, vote.signatures, a)
  {
    var isGenesis := c.IsGenesisState(env, fork, finalized);
    var last := |votes| - 1;
    assert Linked(env, isGenesis, finalized, latest, votes, last)
           && Linked(env, isGenesis, finalized, latest, votes, 0);
    forall i | 0 < i < |votes| ensures votes[i].block.previousStateHash == votes[i - 1].block.stateHash {
      assert Linked(env, isGenesis, finalized, latest, votes, i);
    }
    if !isGenesis {
      var voters := Voters(env, votes, threshold);
      SetOfBound(threshold);
      SubsetCardinality(voters, SetOf(threshold));
      CardinalityDistinct(threshold);
      forall a | a in threshold ensures exists vote <- votes :: env.Signs(vote.block, vote.signatures, a) {
        assert a in voters;
      }
    }
  }
}
