/** contracts/V1/AStateMachine.sol: the channel's state machine as the contracts and the client hold it, an object
    that is set to a state and then moved. */
module StateMachine {
  import opened Types

  class Machine {
    const env: Env
    var state: Bytes

    constructor (env: Env, state: Bytes)
      ensures this.env == env && this.state == state
    {
      this.env, this.state := env, state;
    }

    method SetState(encodedState: Bytes)
      modifies this
      ensures state == encodedState
    {
      state := encodedState;
    }

    /** A transaction that reverts leaves the state alone. */
    method StateTransition(tx: Transaction) returns (success: bool)
      modifies this
      ensures success <==> env.step(old(state), tx).Some?
      ensures state == if success then env.step(old(state), tx).value else old(state)
    {
      var next := env.step(state, tx);
      if next.Some? { state := next.value; }
      success := next.Some?;
    }

    method JoinChannel(joinChannel: JoinChannel) returns (r: Outcome<bool>)
      modifies this
      ensures match env.join(old(state), joinChannel)
              case Revert => r == Revert
              case Ok(joined) => r == Ok(joined.0) && state == joined.1
    {
      var joined :- env.join(state, joinChannel);
      state := joined.1;
      return Ok(joined.0);
    }

    method SlashParticipant(a: Address) returns (r: Outcome<(bool, ProcessExit)>)
      modifies this
      ensures match env.slash(old(state), a)
              case Revert => r == Revert
              case Ok(removal) => r == Ok((removal.success, removal.exit)) && state == removal.state
    {
      var removal :- env.slash(state, a);
      state := removal.state;
      return Ok((removal.success, removal.exit));
    }

    method RemoveParticipant(a: Address) returns (r: Outcome<(bool, ProcessExit)>)
      modifies this
      ensures match env.remove(old(state), a)
              case Revert => r == Revert
              case Ok(removal) => r == Ok((removal.success, removal.exit)) && state == removal.state
    {
      var removal :- env.remove(state, a);
      state := removal.state;
      return Ok((removal.success, removal.exit));
    }
  }
}
