/** StateChannelManagerStorage.sol, DisputeTypes.sol and the readers of StateChannelCommon.sol, for one channel. */
module Storage {
  import opened Types

  datatype Calldata = Calldata(signedBlock: SignedBlock, timestamp: nat)

  /** What was posted for one fork: a map from (height, participant), and every key ever posted. */
  datatype ForkData = ForkData(calldata: map<(nat, Address), Calldata>, keys: seq<(nat, Address)>) {
    function TimeOf(key: (nat, Address)): nat {
      if key in calldata then calldata[key].timestamp else 0
    }

    /** StateChannelCommon.sol:83-107 on the first `n` keys. */
    function Latest(maxHeight: nat, n: nat): nat
      requires n <= |keys|
    {
      if n == 0 then 0
      else
        var before := Latest(maxHeight, n - 1);
        var key := keys[n - 1];
        if TimeOf(key) > before && key.0 <= maxHeight then TimeOf(key) else before
    }
  }

  datatype Dispute = Dispute(
    channelId: ChannelId, forkCnt: nat, challengeCnt: nat,
    finalizedState: Bytes, latestState: Bytes, votes: seq<ConfirmedBlock>,
    timedout: Address, foldedTransactionCnt: nat, timeoutDisputer: Address, postedStateDisputer: Address,
    joins: seq<JoinChannel>, leaves: seq<Address>, slashed: seq<Address>, participants: seq<Address>,
    exits: seq<ProcessExit>, creationTimestamp: nat, deadlineTimestamp: nat)

  const NO_DISPUTE :=
    Dispute(0, 0, 0, [], [], [], ZERO_ADDRESS, 0, ZERO_ADDRESS, ZERO_ADDRESS, [], [], [], [], [], 0, 0)

  datatype Chain = Chain(
    channelId: ChannelId, times: Times, now: nat, latestFork: nat,
    states: map<nat, Bytes>, genesisTimes: map<nat, nat>, posted: map<nat, ForkData>, dispute: Dispute)
  {
    function StateOf(fork: nat): Bytes { if fork in states then states[fork] else [] }

    function GenesisTime(fork: nat): nat { if fork in genesisTimes then genesisTimes[fork] else 0 }

    function DataOf(fork: nat): ForkData { if fork in posted then posted[fork] else ForkData(map[], []) }

    /** getBlockCallData reports a block as found when its recorded time is not zero. */
    predicate CalldataFound(fork: nat, height: nat, participant: Address) {
      DataOf(fork).TimeOf((height, participant)) != 0
    }

    function LatestPosted(fork: nat, maxHeight: nat): nat {
      DataOf(fork).Latest(maxHeight, |DataOf(fork).keys|)
    }

    /** Only hashes are compared, so a later state can pass for the genesis state. */
    predicate IsGenesisState(env: Env, fork: nat, state: Bytes) {
      env.keccak(state) == env.keccak(StateOf(fork))
    }

    predicate DisputeInProgress() {
      dispute.channelId != 0 && dispute.deadlineTimestamp >= now
    }

    /** StateChannelCommon.setState: the only place where the fork number grows. */
    function WithState(encodedState: Bytes): Chain {
      this.(latestFork := latestFork + 1,
            states := states[latestFork + 1 := encodedState],
            genesisTimes := genesisTimes[latestFork + 1 := now])
    }
  }
}
