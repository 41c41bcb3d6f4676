/** The client's stores as they are changed in place: ForkService.ts, QueueService.ts, OnChainTracker.ts and
    AgreementManager.ts of src/agreementManager. Each method is proved against the rule it carries out. */
module AgreementManager {
  import opened Types
  import opened ReplicaRules
  import C = Certificates
  import P = ProofManager

  /** A replica that is nothing but its forks: what the fork store alone decides. */
  function OnlyForks(forks: seq<Fork>): Replica { Replica(forks, map[], {}, []) }

  class ForkService {
    var forks: seq<Fork>

    constructor ()
      ensures forks == []
    {
      forks := [];
    }

    /** ForkService.ts:17-32: a fork number out of sequence is ignored. */
    method NewFork(genesis: Bytes, threshold: seq<Address>, forkCnt: nat, genesisTimestamp: nat)
      modifies this
      ensures forks == if |old(forks)| != forkCnt then old(forks)
                       else old(forks) + [Fork(genesis, threshold, genesisTimestamp, [], [])]
    {
      if |forks| != forkCnt { return; }
      forks := forks + [Fork(genesis, threshold, genesisTimestamp, [], [])];
    }

    /** ForkService.ts:38-63. */
    method AddBlock(block: Block, signature: Signature, state: Bytes) returns (ok: bool)
      modifies this
      ensures match ReplicaRules.AddBlock(OnlyForks(old(forks)), block, signature, state)
              case None => !ok && forks == old(forks)
              case Some(after) => ok && forks == after.forks
      ensures var fork, height := block.transaction.header.forkCnt, block.transaction.header.transactionCnt;
              && (ok <==> fork < |old(forks)| && |old(forks)[fork].agreements| <= height)
              && (ok ==>
                    var f := old(forks)[fork];
                    forks == old(forks)[fork :=
                                        f.(agreements := f.agreements + [Agreement(block, [signature], state)])])
    {
      var fork := block.Fork();
      if fork >= |forks| || block.Height() < |forks[fork].agreements| { return false; }
      var agreements := forks[fork].agreements + [Agreement(block, [signature], state)];
      forks := forks[fork := forks[fork].(agreements := agreements)];
      return true;
    }

    /** ForkService.ts:68-83. */
    method AddChainBlock(fork: nat, posted: ChainBlock) returns (ok: bool)
      modifies this
      ensures ok <==> fork < |old(forks)|
      ensures forks == if !ok then old(forks)
                       else
                         var f := old(forks)[fork];
                         old(forks)[fork := f.(chainBlocks := f.chainBlocks + [posted])]
    {
      if fork >= |forks| { return false; }
      forks := forks[fork := forks[fork].(chainBlocks := forks[fork].chainBlocks + [posted])];
      return true;
    }

    /** AgreementManager.ts:63-88, on the agreement it reaches into. */
    method Confirm(block: Block, signature: Signature) returns (ok: bool)
      modifies this
      ensures match ConfirmBlock(OnlyForks(old(forks)), block, signature)
              case None => !ok && forks == old(forks)
              case Some(after) => ok && forks == after.forks
      ensures var fork, height := block.transaction.header.forkCnt, block.transaction.header.transactionCnt;
              && (ok <==> fork < |old(forks)| && height < |old(forks)[fork].agreements|
                          && old(forks)[fork].agreements[height].block == block
                          && signature !in old(forks)[fork].agreements[height].signatures)
              && (ok ==>
                    var f, a := old(forks)[fork], old(forks)[fork].agreements[height];
                    forks == old(forks)[fork :=
                                        f.(agreements := f.agreements[height :=
                                                                      a.(signatures := a.signatures + [signature])])])
    {
      var fork, height := block.Fork(), block.Height();
      if fork >= |forks| || height >= |forks[fork].agreements| { return false; }
      var agreement := forks[fork].agreements[height];
      if agreement.block != block || signature in agreement.signatures { return false; }
      agreement := agreement.(signatures := agreement.signatures + [signature]);
      forks := forks[fork := forks[fork].(agreements := forks[fork].agreements[height := agreement])];
      return true;
    }
  }

  // ---------- the queue of future blocks ----------

  type NestedQueue = map<nat, map<nat, map<Address, SignedBlock>>>

  function Stored(q: NestedQueue, fork: nat, height: nat, a: Address): Option<SignedBlock> {
    if fork in q && height in q[fork] && a in q[fork][height] then Some(q[fork][height][a]) else None
  }

  /** The flat queue that the nested maps stand for. */
  ghost predicate Flattens(q: NestedQueue, flat: BlockQueue) {
    forall fork: nat, height: nat, a: Address ::
      Stored(q, fork, height, a) == if (fork, height, a) in flat then Some(flat[(fork, height, a)]) else None
  }

  /** insertNestedMapWithOverwrite. */
  method InsertNested(q: NestedQueue, fork: nat, height: nat, author: Address, signed: SignedBlock)
    returns (after: NestedQueue)
    ensures forall f: nat, h: nat, a: Address ::
              Stored(after, f, h, a)
              == (if f == fork && h == height && a == author then Some(signed) else Stored(q, f, h, a))
  {
    var heightMap: map<nat, map<Address, SignedBlock>> := if fork in q then q[fork] else map[];
    var addressMap: map<Address, SignedBlock> := if height in heightMap then heightMap[height] else map[];
    after := q[fork := heightMap[height := addressMap[author := signed]]];
  }

  class QueueService {
    var blockQ: NestedQueue
    ghost var flat: BlockQueue

    ghost predicate Valid()
      reads this
    {
      Flattens(blockQ, flat)
    }

    constructor ()
      ensures Valid() && flat == map[]
    {
      blockQ, flat := map[], map[];
    }

    /** QueueService.ts:14-50. */
    method QueueBlock(signed: SignedBlock)
      requires Valid()
      modifies this
      ensures Valid()
      ensures flat == old(flat)[(signed.block.Fork(), signed.block.Height(), signed.block.Author()) := signed]
    {
      var fork, height, author := signed.block.Fork(), signed.block.Height(), signed.block.Author();
      blockQ := InsertNested(blockQ, fork, height, author, signed);
      flat := flat[(fork, height, author) := signed];
    }

    /** QueueService.ts:52-63. */
    method TryDequeueBlocks(fork: nat, height: nat) returns (blocks: set<SignedBlock>)
      requires Valid()
      modifies this
      ensures Valid()
      ensures flat == map key | key in old(flat) && !(key.0 == fork && key.1 == height) :: old(flat)[key]
      ensures forall signed :: signed in blocks <==>
              exists a :: (fork, height, a) in old(flat) && old(flat)[(fork, height, a)] == signed
    {
      blocks := {};
      if fork in blockQ && height in blockQ[fork] {
        var txMap := blockQ[fork][height];
        blocks := set a | a in txMap :: txMap[a];
        forall signed
          ensures signed in blocks <==> exists a :: (fork, height, a) in flat && flat[(fork, height, a)] == signed
        {
          forall a
            ensures a in txMap && txMap[a] == signed <==> (fork, height, a) in flat && flat[(fork, height, a)] == signed
          {
            assert Stored(blockQ, fork, height, a) == if a in txMap then Some(txMap[a]) else None;
          }
        }
        blockQ := blockQ[fork := blockQ[fork] - {height}];
      } else {
        forall a ensures (fork, height, a) !in flat {
          assert Stored(blockQ, fork, height, a) == None;
        }
      }
      flat := map key | key in flat && !(key.0 == fork && key.1 == height) :: flat[key];
    }

    /** QueueService.ts:101-109. */
    method IsBlockQueued(block: Block) returns (queued: bool)
      requires Valid()
      ensures queued == Replica([], flat, {}, []).Queued(block)
    {
      var stored := Stored(blockQ, block.Fork(), block.Height(), block.Author());
      queued := stored.Some? && stored.value.block == block;
    }
  }

  // ---------- what was posted on chain ----------

  class OnChainTracker {
    const forkService: ForkService
    const queueService: QueueService

    constructor (forkService: ForkService, queueService: QueueService)
      ensures this.forkService == forkService && this.queueService == queueService
    {
      this.forkService, this.queueService := forkService, queueService;
    }

    /** OnChainTracker.ts:45-55; None when the fork is unknown and the call throws. */
    method LatestTimestamp(fork: nat, maxHeight: nat) returns (r: Option<nat>)
      ensures r == if fork < |forkService.forks| then Some(forkService.forks[fork].LatestPostedTimestamp(maxHeight))
                   else None
    {
      if fork >= |forkService.forks| { return None; }
      var f, latest: nat := forkService.forks[fork], 0;
      for i := 0 to |f.chainBlocks|
        invariant latest == f.LatestPosted(maxHeight, i)
      {
        var posted := f.chainBlocks[i];
        if posted.transactionCnt > maxHeight { continue; }
        if posted.timestamp > latest { latest := posted.timestamp; }
      }
      return Some(latest);
    }

    /** OnChainTracker.ts:21-42, with the verdict of the block checker; it throws on an unknown fork. */
    method Collect(signed: SignedBlock, flag: AgreementFlag, timestamp: nat) returns (ok: bool)
      requires queueService.Valid() && !flag.InvalidSignature? && !flag.IncorrectData? && !flag.DoubleSign?
      modifies forkService, queueService
      ensures queueService.Valid()
      ensures ok <==> signed.block.Fork() < |old(forkService.forks)|
      ensures Replica(forkService.forks, queueService.flat, {}, []) ==
              Record(Replica(old(forkService.forks), old(queueService.flat), {}, []), signed, flag, timestamp)
    {
      var fork, height, author := signed.block.Fork(), signed.block.Height(), signed.block.Author();
      if flag != DuplicateBlock { queueService.QueueBlock(signed); }
      if fork < |forkService.forks| && forkService.forks[fork].HasPosted(height, author) { return true; }
      ok := forkService.AddChainBlock(fork, ChainBlock(height, author, timestamp));
    }
  }

  // ---------- the certificate ----------

  /** BlockUtils.getSignerAddresses; None when a signature can not be read and the call throws. */
  method SignerAddresses(env: Env, block: Block, signatures: seq<Signature>) returns (r: Option<set<Address>>)
    ensures r == if env.AllRecover(block, signatures) then Some(env.Signers(block, signatures)) else None
  {
    var signers: set<Address> := {};
    for i := 0 to |signatures|
      invariant env.AllRecover(block, signatures[..i]) && signers == env.Signers(block, signatures[..i])
    {
      var signer := env.Signer(block, signatures[i]);
      if signer.None? {
        assert signatures[i] in signatures;
        return None;
      }
      assert signatures[..i + 1] == signatures[..i] + [signatures[i]];
      signers := signers + {signer.value};
    }
    assert signatures[..|signatures|] == signatures;
    return Some(signers);
  }

  /** BlockUtils.getParticipantSignature. */
  method GetParticipantSignature(env: Env, block: Block, signatures: seq<Signature>, p: Address)
    returns (r: Outcome<Option<Signature>>)
    ensures r == P.ReadParticipantSignature(env, block, signatures, p)
  {
    for i := 0 to |signatures|
      invariant P.ReadParticipantSignature(env, block, signatures, p)
             == P.ReadParticipantSignature(env, block, signatures[i..], p)
    {
      assert signatures[i..][1..] == signatures[i + 1..];
      var signer := env.Signer(block, signatures[i]);
      if signer.None? { return Revert; }
      if signer == Some(p) { return Ok(Some(signatures[i])); }
    }
    return Ok(None);
  }

  /** The threshold addresses that agreements i..m leave out. */
  ghost function Missing(env: Env, f: Fork, i: nat, m: nat): set<Address>
    requires m < |f.agreements|
  {
    set a <- f.threshold | !exists j :: i <= j <= m && C.SignedBy(env, f.agreements[j], a)
  }

  lemma MissingStep(env: Env, f: Fork, i: nat, m: nat)
    requires i <= m < |f.agreements|
    ensures var signers := env.Signers(f.agreements[i].block, f.agreements[i].signatures);
            && Missing(env, f, i, m) == (if i == m then SetOf(f.threshold) else Missing(env, f, i + 1, m)) - signers
            && (Missing(env, f, i, m) == {} <==> C.Covers(env, f, i, m))
  {
    var block, signatures := f.agreements[i].block, f.agreements[i].signatures;
    forall a ensures a in env.Signers(block, signatures) <==> C.SignedBy(env, f.agreements[i], a) {
      env.SignersAreWhoSigns(block, signatures, a);
    }
    forall a | a in f.threshold
      ensures (exists j :: i <= j <= m && C.SignedBy(env, f.agreements[j], a)) <==>
              C.SignedBy(env, f.agreements[i], a)
              || (exists j :: i + 1 <= j <= m && C.SignedBy(env, f.agreements[j], a))
    {}
    if C.Covers(env, f, i, m) { assert forall a :: a !in Missing(env, f, i, m); }
    if Missing(env, f, i, m) == {} {
      forall a | a in f.threshold ensures exists j :: i <= j <= m && C.SignedBy(env, f.agreements[j], a) {
        assert a !in Missing(env, f, i, m);
      }
    }
  }

  /** Where the backward loop stands after looking at agreements i..: nothing signed by `p` yet, or m found and
      the signers of i..m not enough. */
  ghost predicate Scanned(env: Env, f: Fork, p: Address, i: nat, latest: Option<Bytes>, votes: seq<ConfirmedBlock>,
                          required: set<Address>)
    requires i <= |f.agreements|
  {
    var m := C.LatestSigned(env, f.agreements, p, |f.agreements|);
    if m < i then latest == None && votes == [] && required == SetOf(f.threshold)
    else
      && latest == Some(f.agreements[m].state) && votes == C.Votes(f.agreements[i..m + 1])
      && required == Missing(env, f, i, m) && forall k :: i <= k <= m ==> !C.Covers(env, f, k, m)
  }

  /** AgreementManager.ts:266-329 past the lookup of the fork; None when a signature can not be read and the call
      throws. */
  method GetFinalizedAndLatestWithVotes(env: Env, f: Fork, p: Address) returns (r: Option<C.Certificate>)
    ensures r.Some? ==> r.value == C.BestCertificate(env, f, p)
    ensures r.None? ==> exists a <- f.agreements :: !env.AllRecover(a.block, a.signatures)
  {
    var latest: Option<Bytes>, votes: seq<ConfirmedBlock>, required := None, [], SetOf(f.threshold);
    ghost var m := C.LatestSigned(env, f.agreements, p, |f.agreements|);
    var i := |f.agreements|;
    while i > 0
      invariant 0 <= i <= |f.agreements| && Scanned(env, f, p, i, latest, votes, required)
    {
      i := i - 1;
      var agreement := f.agreements[i];
      var signers := SignerAddresses(env, agreement.block, agreement.signatures);
      if signers.None? {
        assert agreement in f.agreements;
        return None;
      }
      env.SignersAreWhoSigns(agreement.block, agreement.signatures, p);
      if latest.None? && p in signers.value { latest := Some(agreement.state); }
      if latest.None? { continue; }
      votes := [ConfirmedBlock(agreement.block, agreement.signatures)] + votes;
      required := required - signers.value;
      MissingStep(env, f, i, m);
      assert votes == C.Votes(f.agreements[i..m + 1]);
      if required == {} { return Some(C.Certificate(agreement.state, latest.value, votes)); }
    }
    return Some(C.Certificate(f.genesis, if latest.Some? then latest.value else f.genesis, votes));
  }

  /** AgreementManager.ts:130-153. */
  method GetLatestSignedBlockByParticipant(env: Env, f: Fork, p: Address) returns (r: Outcome<Option<SignedBlock>>)
    ensures r.Ok? ==> r.value == P.LatestSignedBlock(env, f.agreements, p)
    ensures r == Revert ==> exists a <- f.agreements :: !env.AllRecover(a.block, a.signatures)
  {
    var i := |f.agreements|;
    while i > 0
      invariant 0 <= i <= |f.agreements|
      invariant C.LatestSigned(env, f.agreements, p, |f.agreements|) == C.LatestSigned(env, f.agreements, p, i)
    {
      i := i - 1;
      var agreement := f.agreements[i];
      var signature := GetParticipantSignature(env, agreement.block, agreement.signatures, p);
      if signature.Revert? {
        assert agreement in f.agreements;
        return Revert;
      }
      if signature.value.Some? { return Ok(Some(SignedBlock(agreement.block, signature.value.value))); }
    }
    return Ok(None);
  }
}
