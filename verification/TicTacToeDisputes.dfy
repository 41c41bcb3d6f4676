/** What a dispute makes of a TicTacToe channel. */
module TicTacToeDisputes {
  import opened Types
  import opened Storage
  import D = DisputeRules
  import DR = DisputeRuns
  import opened TicTacToe
  import opened TicTacToeChannel

  ghost predicate Removes(remove: (Bytes, Address) -> Outcome<Removal>) {
    forall words, a :: remove(words, a) == RemoveWords(words, a)
  }

  lemma RemovesEncoded(remove: (Bytes, Address) -> Outcome<Removal>, g: Game, a: Address)
    requires Removes(remove) && g.Shaped() && |g.participants| == |g.balances|
    ensures remove(Encode(g), a) == match RemoveParticipant(g, a)
                                    case Revert => Revert
                                    case Ok(left) => Ok(Removal(left.success, left.exit, Encode(left.game)))
  {
    DecodeEncode(g);
  }

  /** One player or two. */
  predicate Manned(g: Game) {
    Playing(g) || (|g.participants| == |g.balances| == 1 && g.Shaped())
  }

  predicate Empties(g: Game, gone: set<Address>)
    requires Manned(g)
  {
    g.participants[0] in gone && (|g.participants| == 2 ==> g.participants[1] in gone)
  }

  /** A game after everyone in `gone` was removed, and the exits. */
  function Remaining(g: Game, gone: set<Address>): (Game, seq<ProcessExit>)
    requires Manned(g) && !Empties(g, gone)
  {
    if |g.participants| == 1 || (g.participants[0] !in gone && g.participants[1] !in gone) then (g, [])
    else
      var leaver := if g.participants[0] in gone then g.participants[0] else g.participants[1];
      var left := RemoveParticipant(g, leaver);
      FirstRemoval(g, leaver);
      (left.value.game, [left.value.exit])
  }

  lemma RemainingIsManned(g: Game, gone: set<Address>)
    requires Manned(g) && !Empties(g, gone)
    ensures var after := Remaining(g, gone).0;
            && Manned(after)
            && (forall a :: a in after.participants <==> a in g.participants && a !in gone)
  {
    if Remaining(g, gone).1 != [] {
      FirstRemoval(g, if g.participants[0] in gone then g.participants[0] else g.participants[1]);
    }
  }

  /** One more name on the list. */
  lemma RemainingStep(g: Game, gone: set<Address>, a: Address)
    requires Manned(g) && !Empties(g, gone)
    ensures var before := Remaining(g, gone);
            var removed := RemoveParticipant(before.0, a);
            && (removed == Revert <==> Empties(g, gone + {a}))
            && (removed.Ok? ==>
                  && Remaining(g, gone + {a}).0 == removed.value.game
                  && Remaining(g, gone + {a}).1
                     == (if removed.value.success then before.1 + [removed.value.exit] else before.1))
  {
    var first, second := g.participants[0], if |g.participants| == 2 then g.participants[1] else g.participants[0];
    if first == second || (first !in gone && second !in gone) {
      assert Remaining(g, gone) == (g, []);
    } else {
      var stays := if first in gone then second else first;
      assert Remaining(g, gone).0.participants == [stays];
    }
  }

  /** The same for the encoded game, as one removal of the manager sees it. */
  predicate StepsAs(remove: (Bytes, Address) -> Outcome<Removal>, g: Game, gone: set<Address>, a: Address)
    requires Manned(g) && !Empties(g, gone)
  {
    var before, removed := Remaining(g, gone), remove(Encode(Remaining(g, gone).0), a);
    && (removed == Revert <==> Empties(g, gone + {a}))
    && (removed.Ok? ==>
          var after := Remaining(g, gone + {a});
          && removed.value.state == Encode(after.0)
          && after.1 == if removed.value.success then before.1 + [removed.value.exit] else before.1)
  }

  lemma RemovalStep(remove: (Bytes, Address) -> Outcome<Removal>, g: Game, gone: set<Address>, a: Address)
    requires Removes(remove) && Manned(g) && !Empties(g, gone)
    ensures StepsAs(remove, g, gone, a)
  {
    RemainingIsManned(g, gone);
    RemovesEncoded(remove, Remaining(g, gone).0, a);
    RemainingStep(g, gone, a);
  }

  lemma {:induction false} PassSteps(remove: (Bytes, Address) -> Outcome<Removal>, g: Game, gone: seq<Address>)
    requires Manned(g)
    requires forall some: set<Address>, a :: !Empties(g, some) ==> StepsAs(remove, g, some, a)
    ensures D.ApplyRemovals(remove, Encode(g), gone) ==
            if Empties(g, SetOf(gone)) then Revert
            else var after := Remaining(g, SetOf(gone)); Ok((Encode(after.0), after.1))
  {
    if gone == [] {
      assert g.participants[0] !in SetOf(gone);
    } else {
      var last := |gone| - 1;
      PassSteps(remove, g, gone[..last]);
      assert SetOf(gone) == SetOf(gone[..last]) + {gone[last]};
      if !Empties(g, SetOf(gone[..last])) {
        assert StepsAs(remove, g, SetOf(gone[..last]), gone[last]);
      }
    }
  }

  /** One pass of removals: it reverts exactly when it would leave nobody. */
  lemma PassRemoves(remove: (Bytes, Address) -> Outcome<Removal>, g: Game, gone: seq<Address>)
    requires Removes(remove) && Manned(g)
    ensures D.ApplyRemovals(remove, Encode(g), gone) ==
            if Empties(g, SetOf(gone)) then Revert
            else var after := Remaining(g, SetOf(gone)); Ok((Encode(after.0), after.1))
  {
    forall some: set<Address>, a | !Empties(g, some) ensures StepsAs(remove, g, some, a) {
      RemovalStep(remove, g, some, a);
    }
    PassSteps(remove, g, gone);
  }

  lemma RemainingTwice(g: Game, first: set<Address>, second: set<Address>)
    requires Manned(g) && !Empties(g, first)
    ensures var once := Remaining(g, first);
            && Manned(once.0)
            && (Empties(once.0, second) <==> Empties(g, first + second))
            && (!Empties(once.0, second) ==>
                  && Remaining(g, first + second).0 == Remaining(once.0, second).0
                  && Remaining(g, first + second).1 == once.1 + Remaining(once.0, second).1)
  {
    RemainingIsManned(g, first);
  }

  /** Everyone a dispute removes. */
  function Condemned(d: Dispute): set<Address> { SetOf(d.slashed) + SetOf(D.Folded(d)) }

  /** Settling a dispute over a game in progress reverts exactly when a join is pending or both players are
      condemned, so such a dispute can not be opened. Otherwise whoever is condemned leaves with what the bet
      left it, and the other player stays. */
  lemma DisputeSettles(env: Env, g: Game, d: Dispute)
    requires IsTicTacToe(env) && Playing(g) && d.latestState == Encode(g) && d.leaves == []
    ensures D.ApplyToLatestState(env, d) ==
            if d.joins != [] || Empties(g, Condemned(d)) then Revert
            else var after := Remaining(g, Condemned(d)); Ok(d.(latestState := Encode(after.0), exits := after.1))
  {
    D.NobodyJoins(env, d);
    if d.joins == [] {
      D.SettlingIsTwoPasses(env, d);
      PassRemoves(env.slash, g, d.slashed);
      if !Empties(g, SetOf(d.slashed)) {
        RemainingTwice(g, SetOf(d.slashed), SetOf(D.Folded(d)));
        PassRemoves(env.remove, Remaining(g, SetOf(d.slashed)).0, D.Folded(d));
      }
    }
  }

  function Paid(exits: seq<ProcessExit>): nat {
    if exits == [] then 0 else Paid(exits[..|exits| - 1]) + exits[|exits| - 1].amount
  }

  function Held(balances: seq<nat>): nat {
    if balances == [] then 0 else Held(balances[..|balances| - 1]) + balances[|balances| - 1]
  }

  lemma HeldByOne(balances: seq<nat>)
    requires |balances| == 1
    ensures Held(balances) == balances[0]
  {}

  lemma HeldByTwo(balances: seq<nat>)
    requires |balances| == 2
    ensures Held(balances) == balances[0] + balances[1]
  {
    HeldByOne(balances[..1]);
  }

  /** What leaves and what stays add up to what was there. */
  lemma SettlingConserves(g: Game, gone: set<Address>)
    requires Playing(g) && !Empties(g, gone)
    ensures var after := Remaining(g, gone); Paid(after.1) + Held(after.0.balances) == g.Total()
  {
    var after := Remaining(g, gone);
    if after.1 == [] {
      HeldByTwo(g.balances);
    } else {
      FirstRemoval(g, if g.participants[0] in gone then g.participants[0] else g.participants[1]);
      HeldByOne(after.0.balances);
      assert Paid(after.1[..0]) == 0;
    }
  }

  /** Seen from outside: an accepted createDispute or challengeDispute over a game in progress never
      condemns both players. Its fork starts with the players left, and its exits with what is on
      that fork add up to the total of the game. */
  lemma NewForkGame(env: Env, c: Chain, tx: DR.Tx, g: Game)
    requires IsTicTacToe(env) && DR.Consistent(c) && (tx.call.Create? || tx.call.Challenge?)
    requires DR.Execute(env, c, tx).Ok?
    requires Playing(g) && tx.call.latest == Encode(g)
    ensures var after := DR.Execute(env, c, tx).value;
            !Empties(g, Condemned(after.dispute)) &&
            var remaining := Remaining(g, Condemned(after.dispute));
            && after.StateOf(after.latestFork) == Encode(remaining.0)
            && after.dispute.exits == remaining.1
            && Paid(after.dispute.exits) + Held(remaining.0.balances) == g.Total()
  {
    var d := DR.SettledDispute(env, c, tx);
    DR.SettlingKeeps(env, d);
    DisputeSettles(env, g, d);
    SettlingConserves(g, Condemned(d));
  }
}
