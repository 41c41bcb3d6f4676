/** contracts/V1/examples/MathStateMachine/MathStateMachine.sol, and what a dispute makes of its participants. */
module MathStateMachine {
  import opened Types
  import opened Storage
  import D = DisputeRules
  import DR = DisputeRuns

  datatype MathState = MathState(number: int, participants: seq<Address>)

  /** The ABI words of a state: the number, then the participants. */
  function Encode(s: MathState): Bytes { [s.number] + s.participants }

  function Decode(words: Bytes): MathState {
    if words == [] then MathState(0, []) else MathState(words[0], words[1..])
  }

  lemma DecodeEncode(s: MathState)
    ensures Decode(Encode(s)) == s
  {}

  /** Lines 65-81: swap with the last and pop. */
  function Remove(s: MathState, a: Address): (bool, ProcessExit, MathState) {
    var i, last := FirstAt(s.participants, a, |s.participants|), |s.participants| - 1;
    if i > last then (false, NO_EXIT, s)
    else (true, ProcessExit(a, 0), s.(participants := s.participants[i := s.participants[last]][..last]))
  }

  function RemoveEncoded(words: Bytes, a: Address): Removal {
    var removed := Remove(Decode(words), a);
    Removal(removed.0, removed.1, if removed.0 then Encode(removed.2) else words)
  }

  /** The machine of the channel is the Math machine: slashing removes, as lines 59-63 do, and nobody joins. */
  ghost predicate IsMath(env: Env) {
    && D.RefusesJoins(env)
    && (forall words, a :: env.slash(words, a) == Ok(RemoveEncoded(words, a)))
    && (forall words, a :: env.remove(words, a) == Ok(RemoveEncoded(words, a)))
    && (forall words :: env.participants(words) == Decode(words).participants)
  }

  // ---------- removing one ----------

  lemma RemoveTakesOut(s: MathState, a: Address)
    requires Distinct(s.participants)
    ensures var removed := Remove(s, a);
            && removed.0 == (a in s.participants)
            && removed.2.number == s.number
            && Distinct(removed.2.participants)
            && SetOf(removed.2.participants) == SetOf(s.participants) - {a}
            && (removed.0 ==> removed.1 == ProcessExit(a, 0))
  {
    var participants := s.participants;
    var i, last := FirstAt(participants, a, |participants|), |participants| - 1;
    if i <= last {
      var after := participants[i := participants[last]][..last];
      forall x ensures x in after <==> x in participants && x != a {
        if x in participants && x != a {
          var j :| 0 <= j < |participants| && participants[j] == x;
          assert after[if j == last then i else j] == x;
        }
      }
    }
  }

  // ---------- removing a list ----------

  /** The addresses of `gone` that are in `from`, in order: who really leaves. */
  function Leaving(gone: seq<Address>, from: set<Address>): seq<Address> {
    if gone == [] then []
    else
      var last := |gone| - 1;
      Leaving(gone[..last], from) + (if gone[last] in from then [gone[last]] else [])
  }

  function Exits(leaving: seq<Address>): (exits: seq<ProcessExit>)
    ensures |exits| == |leaving| && forall i :: 0 <= i < |exits| ==> exits[i] == ProcessExit(leaving[i], 0)
  {
    if leaving == [] then [] else Exits(leaving[..|leaving| - 1]) + [ProcessExit(leaving[|leaving| - 1], 0)]
  }

  lemma {:induction false} LeavingIsFilter(gone: seq<Address>, from: set<Address>)
    requires Distinct(gone)
    ensures Distinct(Leaving(gone, from))
    ensures forall a :: a in Leaving(gone, from) <==> a in gone && a in from
  {
    if gone != [] {
      LeavingIsFilter(gone[..|gone| - 1], from);
      assert gone == gone[..|gone| - 1] + [gone[|gone| - 1]];
    }
  }

  lemma RemovedWords(words: Bytes, a: Address)
    requires Distinct(Decode(words).participants)
    ensures var removed := RemoveEncoded(words, a);
            && removed.success == (a in Decode(words).participants)
            && Decode(removed.state).number == Decode(words).number
            && Distinct(Decode(removed.state).participants)
            && SetOf(Decode(removed.state).participants) == SetOf(Decode(words).participants) - {a}
            && (removed.success ==> removed.exit == ProcessExit(a, 0))
  {
    RemoveTakesOut(Decode(words), a);
    DecodeEncode(Remove(Decode(words), a).2);
  }

  lemma LastSplit(gone: seq<Address>)
    requires gone != [] && Distinct(gone)
    ensures var last := |gone| - 1;
            SetOf(gone) == SetOf(gone[..last]) + {gone[last]} && gone[last] !in SetOf(gone[..last])
  {}

  /** One pass of removals on a distinct participant list: everyone named leaves once, in the order of the list;
      the names that are not there are skipped. */
  lemma {:induction false} RemovalsTakeOut(remove: (Bytes, Address) -> Outcome<Removal>, words: Bytes,
                                           gone: seq<Address>)
    requires forall w, a :: remove(w, a) == Ok(RemoveEncoded(w, a))
    requires Distinct(Decode(words).participants) && Distinct(gone)
    ensures D.ApplyRemovals(remove, words, gone).Ok?
    ensures var after := D.ApplyRemovals(remove, words, gone).value;
            var from := SetOf(Decode(words).participants);
            && Distinct(Decode(after.0).participants)
            && SetOf(Decode(after.0).participants) == from - SetOf(gone)
            && after.1 == Exits(Leaving(gone, from))
            && Decode(after.0).number == Decode(words).number
  {
    var from := SetOf(Decode(words).participants);
    if gone != [] {
      var last := |gone| - 1;
      RemovalsTakeOut(remove, words, gone[..last]);
      var before := D.ApplyRemovals(remove, words, gone[..last]).value;
      RemovedWords(before.0, gone[last]);
      LastSplit(gone);
      assert gone[last] in SetOf(Decode(before.0).participants) <==> gone[last] in from;
      ExitsSnoc(Leaving(gone[..last], from), gone[last]);
    }
  }

  lemma ExitsSnoc(leaving: seq<Address>, a: Address)
    ensures Exits(leaving + [a]) == Exits(leaving) + [ProcessExit(a, 0)]
  {}

  // ---------- the outcome of a dispute ----------

  /** Everyone a dispute removes, in the order of removal: the slashed, then the timed-out participant. */
  function Condemned(d: Dispute): seq<Address> {
    d.slashed + (if d.timedout != ZERO_ADDRESS && d.timedout !in d.slashed then [d.timedout] else [])
  }

  lemma {:induction false} LeavingConcat(a: seq<Address>, b: seq<Address>, from: set<Address>)
    ensures Leaving(a + b, from) == Leaving(a, from) + Leaving(b, from)
  {
    if b == [] {
      assert a + b == a;
    } else {
      LeavingConcat(a, b[..|b| - 1], from);
      assert (a + b)[..|a + b| - 1] == a + b[..|b| - 1];
    }
  }

  lemma {:induction false} ExitsConcat(a: seq<Address>, b: seq<Address>)
    ensures Exits(a + b) == Exits(a) + Exits(b)
  {}

  lemma FoldedLeaves(d: Dispute, posted: set<Address>)
    ensures Exits(Leaving(d.slashed, posted)) + Exits(Leaving(D.Folded(d), posted - SetOf(d.slashed)))
            == Exits(Leaving(Condemned(d), posted))
  {
    var extra := if d.timedout != ZERO_ADDRESS && d.timedout !in d.slashed then [d.timedout] else [];
    assert [d.timedout][..0] == [];
    assert Leaving(D.Folded(d), posted - SetOf(d.slashed)) == Leaving(extra, posted);
    LeavingConcat(d.slashed, extra, posted);
    ExitsConcat(Leaving(d.slashed, posted), Leaving(extra, posted));
  }

  lemma TwoPasses(slash: (Bytes, Address) -> Outcome<Removal>, remove: (Bytes, Address) -> Outcome<Removal>,
                  words: Bytes, d: Dispute)
    returns (slashed: (Bytes, seq<ProcessExit>), folded: (Bytes, seq<ProcessExit>))
    requires forall w, a :: slash(w, a) == Ok(RemoveEncoded(w, a))
    requires forall w, a :: remove(w, a) == Ok(RemoveEncoded(w, a))
    requires Distinct(Decode(words).participants) && Distinct(d.slashed)
    ensures D.ApplyRemovals(slash, words, d.slashed) == Ok(slashed)
    ensures D.ApplyRemovals(remove, slashed.0, D.Folded(d)) == Ok(folded)
    ensures var posted := SetOf(Decode(words).participants);
            && Distinct(Decode(folded.0).participants)
            && SetOf(Decode(folded.0).participants) == posted - SetOf(Condemned(d))
            && slashed.1 + folded.1 == Exits(Leaving(Condemned(d), posted))
            && Decode(folded.0).number == Decode(words).number
  {
    RemovalsTakeOut(slash, words, d.slashed);
    slashed := D.ApplyRemovals(slash, words, d.slashed).value;
    RemovalsTakeOut(remove, slashed.0, D.Folded(d));
    folded := D.ApplyRemovals(remove, slashed.0, D.Folded(d)).value;
    FoldedLeaves(d, SetOf(Decode(words).participants));
    CondemnedAre(d);
  }

  lemma CondemnedAre(d: Dispute)
    ensures SetOf(Condemned(d)) == SetOf(d.slashed) + SetOf(D.Folded(d))
  {}

  /** Settling a dispute on the Math machine: it reverts exactly when a join is pending; otherwise the participants
      left are the posted ones minus the condemned, every condemned participant has exactly one exit, in order,
      and the number is the posted one. */
  lemma DisputeOutcome(env: Env, d: Dispute)
    requires IsMath(env) && d.leaves == []
    requires Distinct(d.slashed) && Distinct(env.participants(d.latestState))
    ensures var settled := D.ApplyToLatestState(env, d);
            var posted := SetOf(env.participants(d.latestState));
            && (settled == Revert <==> d.joins != [])
            && (settled.Ok? ==>
                  && Distinct(env.participants(settled.value.latestState))
                  && SetOf(env.participants(settled.value.latestState)) == posted - SetOf(Condemned(d))
                  && settled.value.exits == Exits(Leaving(Condemned(d), posted))
                  && Decode(settled.value.latestState).number == Decode(d.latestState).number)
  {
    D.NobodyJoins(env, d);
    if d.joins == [] {
      var slashed, folded := TwoPasses(env.slash, env.remove, d.latestState, d);
      D.SettlingIsTwoPasses(env, d);
    }
  }

  /** Each exit is of a different participant: no one leaves twice. */
  lemma ExitsAreDistinct(d: Dispute, posted: set<Address>)
    requires Distinct(d.slashed)
    ensures Distinct(Leaving(Condemned(d), posted))
    ensures forall a :: a in Leaving(Condemned(d), posted) <==> a in posted && a in Condemned(d)
  {
    LeavingIsFilter(Condemned(d), posted);
  }

  /** The same, seen from outside: after any accepted createDispute or challengeDispute, in any state a run can
      reach, the new fork starts with the posted participants minus the condemned. */
  lemma NewForkParticipants(env: Env, c: Chain, tx: DR.Tx)
    requires IsMath(env) && DR.Consistent(c) && (tx.call.Create? || tx.call.Challenge?)
    requires DR.Execute(env, c, tx).Ok? && Distinct(env.participants(tx.call.latest))
    ensures var after := DR.Execute(env, c, tx).value;
            var posted := SetOf(env.participants(tx.call.latest));
            var remaining := env.participants(after.StateOf(after.latestFork));
            && Distinct(remaining)
            && SetOf(remaining) == posted - SetOf(Condemned(after.dispute))
            && after.dispute.exits == Exits(Leaving(Condemned(after.dispute), posted))
            && tx.sender !in after.dispute.slashed
  {
    var d := DR.SettledDispute(env, c, tx);
    DR.SettlingKeeps(env, d);
    DisputeOutcome(env, d);
  }

  // ---------- the contract ----------

  class Machine {
    var number: int
    var participants: seq<Address>

    function View(): MathState
      reads this
    {
      MathState(number, participants)
    }

    constructor (s: MathState)
      ensures View() == s
    {
      number, participants := s.number, s.participants;
    }

    /** Lines 52-57; `writer` is the participant of the current transaction. */
    function NextToWrite(writer: Address): Address
      requires number >= 0
      reads this
    {
      if participants == [] then writer else participants[number % |participants|]
    }

    /** Lines 19-28: the turn moves on by the amount added, or the call reverts. */
    method Add(writer: Address, amount: nat) returns (r: Outcome<int>)
      requires number >= 0
      modifies this
      ensures r.Ok? <==> writer == old(NextToWrite(writer)) && old(number) + amount <= UINT_MAX
      ensures View() == if r.Ok? then old(View()).(number := old(number) + amount) else old(View())
      ensures r.Ok? ==> r.value == number
    {
      if writer != NextToWrite(writer) || number + amount > UINT_MAX { return Revert; }
      number := number + amount;
      return Ok(number);
    }

    method RemoveParticipant(a: Address) returns (success: bool, exit: ProcessExit)
      modifies this
      ensures (success, exit, View()) == Remove(old(View()), a)
    {
      var length := |participants|;
      for i := 0 to length
        invariant participants == old(participants) && number == old(number)
        invariant a !in participants[..i]
      {
        if participants[i] == a {
          assert FirstAt(participants, a, length) == i;
          participants := participants[i := participants[length - 1]];
          participants := participants[..length - 1];
          return true, ProcessExit(a, 0);
        }
      }
      return false, NO_EXIT;
    }
  }
}
