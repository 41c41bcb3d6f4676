/** The data shared by the contracts and the client: blocks and their signed envelopes, and the
    external world (hashing, signature recovery, the channel's state machine).

    An encoded block and the block it encodes are identified: ABI encoding is taken as a bijection. */
module Types {
  /** `Revert` is a Solidity revert, without effect, or a TypeScript exception. It is failure-compatible, so `:-` in a
      function reads like a `require`. */
  datatype Outcome<+T> = Revert | Ok(value: T) {
    predicate IsFailure() { Revert? }
    function PropagateFailure<U>(): Outcome<U> requires Revert? { Revert }
    function Extract(): T requires Ok? { value }
  }

  datatype Option<+T> = None | Some(value: T)

  /** The verdict of one `require`. */
  datatype Requirement = Pass | Fail {
    predicate IsFailure() { Fail? }
    function PropagateFailure<U>(): Outcome<U> requires Fail? { Revert }
  }

  function Require(condition: bool): Requirement {
    if condition then Pass else Fail
  }

  /** Addresses, hashes, signatures and channel ids are only ever compared. */
  type Address = int
  type Hash = int
  type Signature = int
  type ChannelId = int
  /** The words of an ABI encoding. */
  type Bytes = seq<int>

  const ZERO_ADDRESS: Address := 0
  const UINT_MAX: nat := 0xffff_ffff_ffff_ffff_ffff_ffff_ffff_ffff_ffff_ffff_ffff_ffff_ffff_ffff_ffff_ffff

  datatype Header = Header(
    channelId: ChannelId, participant: Address, forkCnt: nat, transactionCnt: nat, timestamp: nat)

  datatype Transaction = Transaction(header: Header, body: Bytes)

  datatype Block = Block(transaction: Transaction, stateHash: Hash, previousStateHash: Hash) {
    function Author(): Address { transaction.header.participant }
    function ChannelOf(): ChannelId { transaction.header.channelId }
    function Fork(): nat { transaction.header.forkCnt }
    function Height(): nat { transaction.header.transactionCnt }
    function Timestamp(): nat { transaction.header.timestamp }
  }

  datatype SignedBlock = SignedBlock(block: Block, signature: Signature)

  datatype ConfirmedBlock = ConfirmedBlock(block: Block, signatures: seq<Signature>)

  datatype JoinChannel = JoinChannel(
    channelId: ChannelId, participant: Address, amount: nat, deadlineTimestamp: nat, data: Bytes)

  datatype SignedJoinChannel = SignedJoinChannel(joinChannel: JoinChannel, signature: Signature)

  datatype ProcessExit = ProcessExit(participant: Address, amount: nat)

  const NO_EXIT := ProcessExit(ZERO_ADDRESS, 0)

  /** What slashing or removing one participant yields: on failure the state is unchanged. */
  datatype Removal = Removal(success: bool, exit: ProcessExit, state: Bytes)

  datatype Times = Times(p2p: nat, agreement: nat, chainFallback: nat, challenge: nat) {
    function TimeoutWait(): nat { p2p + agreement + chainFallback }
  }

  /** Everything the repository takes from outside. Nothing is assumed about any of these
      functions; a theorem that needs a hash not to collide says so for the values it uses. */
  datatype Env = Env(
    keccak: Bytes -> Hash,
    blockHash: Block -> Hash,
    joinHash: JoinChannel -> Hash,
    signedJoinHash: SignedJoinChannel -> Hash,
    recover: (Hash, Signature) -> Option<Address>,
    step: (Bytes, Transaction) -> Option<Bytes>,
    participants: Bytes -> seq<Address>,
    nextToWrite: Bytes -> Address,
    join: (Bytes, JoinChannel) -> Outcome<(bool, Bytes)>,
    slash: (Bytes, Address) -> Outcome<Removal>,
    remove: (Bytes, Address) -> Outcome<Removal>,
    addComposable: JoinChannel -> bool)
  {
    function Signer(block: Block, signature: Signature): Option<Address> {
      recover(blockHash(block), signature)
    }

    predicate AllRecover(block: Block, signatures: seq<Signature>) {
      forall s <- signatures :: Signer(block, s).Some?
    }

    predicate Signs(block: Block, signatures: seq<Signature>, a: Address) {
      exists s <- signatures :: Signer(block, s) == Some(a)
    }

    function Signers(block: Block, signatures: seq<Signature>): set<Address> {
      set s <- signatures | Signer(block, s).Some? :: Signer(block, s).value
    }

    lemma SignersAreWhoSigns(block: Block, signatures: seq<Signature>, a: Address)
      ensures a in Signers(block, signatures) <==> Signs(block, signatures, a)
    {}
  }

  predicate Distinct<T(==)>(s: seq<T>) {
    forall i, j :: 0 <= i < j < |s| ==> s[i] != s[j]
  }

  function SetOf<T(==)>(s: seq<T>): set<T> {
    set x <- s
  }

  /** The first place of `x` below `n`; `n` when there is none. */
  function FirstAt<T(==)>(s: seq<T>, x: T, n: nat): (i: nat)
    requires n <= |s|
    ensures i <= n && (i < n ==> s[i] == x)
    ensures forall j :: 0 <= j < i ==> s[j] != x
  {
    if n == 0 then 0
    else
      var before := FirstAt(s, x, n - 1);
      if before < n - 1 || s[n - 1] == x then before else n
  }

  /** Pigeonhole: a duplicate-free list has exactly as many elements as its set. */
  lemma {:induction false} DistinctCardinality<T>(s: seq<T>)
    requires Distinct(s)
    ensures |SetOf(s)| == |s|
  {
    if s != [] {
      var front, last := s[..|s| - 1], s[|s| - 1];
      DistinctCardinality(front);
      assert last !in SetOf(front);
      assert SetOf(s) == SetOf(front) + {last};
    }
  }

  lemma {:induction false} SetOfBound<T>(s: seq<T>)
    ensures |SetOf(s)| <= |s|
  {
    if s != [] {
      var front, last := s[..|s| - 1], s[|s| - 1];
      SetOfBound(front);
      assert SetOf(s) == SetOf(front) + {last};
    }
  }

  /** The converse of the pigeonhole: a list as long as its set has no duplicates. */
  lemma {:induction false} CardinalityDistinct<T>(s: seq<T>)
    requires |SetOf(s)| == |s|
    ensures Distinct(s)
  {
    if s != [] {
      var front, last := s[..|s| - 1], s[|s| - 1];
      SetOfBound(front);
      assert SetOf(s) == SetOf(front) + {last};
      assert last in SetOf(front) ==> SetOf(front) + {last} == SetOf(front);
      CardinalityDistinct(front);
    }
  }

  lemma SubsetCardinality<T>(a: set<T>, b: set<T>)
    requires a <= b
    ensures |a| <= |b|
    ensures |a| == |b| ==> a == b
  {
    assert b == a + (b - a);
    assert |b| == |a| + |b - a|;
  }
}
