/** TicTacToe as the machine of a channel: its states as words, and what a channel that plays it keeps. */
module TicTacToeChannel {
  import opened Types
  import D = DisputeRules
  import opened ReplicaRules
  import opened ReplicaRuns
  import opened TicTacToe

  // ---------- games as words ----------

  function Natural(w: int): nat { if w < 0 then 0 else w }

  function Naturals(words: seq<int>): seq<nat> { seq(|words|, i requires 0 <= i < |words| => Natural(words[i])) }

  function WordOf(cell: Cell): int {
    match cell
    case Empty => 0
    case X => 1
    case O => 2
  }

  function CellOf(word: int): Cell { if word == 1 then X else if word == 2 then O else Empty }

  function RowWords(row: seq<Cell>): Bytes
    requires |row| == 3
  {
    [WordOf(row[0]), WordOf(row[1]), WordOf(row[2])]
  }

  function RowOf(words: Bytes): seq<Cell>
    requires |words| == 3
  {
    [CellOf(words[0]), CellOf(words[1]), CellOf(words[2])]
  }

  /** The fields that have a fixed size: the board, then the rest. */
  function Tail(g: Game): Bytes
    requires g.Shaped()
  {
    RowWords(g.board[0]) + RowWords(g.board[1]) + RowWords(g.board[2])
    + [g.currentPlayer, if g.gameActive then 1 else 0, g.movesCount, g.betAmount]
  }

  /** The ABI words of a game: the two lists behind their lengths, then the tail. */
  function Encode(g: Game): Bytes {
    if g.Shaped() then [|g.participants|] + g.participants + [|g.balances|] + g.balances + Tail(g) else []
  }

  const NO_GAME := Game([], [], EMPTY_BOARD, ZERO_ADDRESS, false, 0, 0)

  function Decode(words: Bytes): (g: Game)
    ensures g.Shaped()
  {
    if words == [] || words[0] < 0 || |words| < words[0] + 2 || words[words[0] + 1] < 0 then NO_GAME
    else
      var n := words[0];
      var m := words[n + 1];
      if |words| != n + m + 15 then NO_GAME
      else
        var tail := words[n + m + 2..];
        Game(words[1..n + 1], Naturals(words[n + 2..n + m + 2]),
             [RowOf(tail[0..3]), RowOf(tail[3..6]), RowOf(tail[6..9])],
             tail[9], tail[10] == 1, Natural(tail[11]), Natural(tail[12]))
  }

  lemma RowRoundTrip(row: seq<Cell>)
    requires |row| == 3
    ensures RowOf(RowWords(row)) == row
  {}

  lemma TailRoundTrip(g: Game)
    requires g.Shaped()
    ensures var tail := Tail(g);
            && |tail| == 13
            && [RowOf(tail[0..3]), RowOf(tail[3..6]), RowOf(tail[6..9])] == g.board
            && tail[9] == g.currentPlayer && (tail[10] == 1) == g.gameActive
            && Natural(tail[11]) == g.movesCount && Natural(tail[12]) == g.betAmount
  {
    var tail := Tail(g);
    assert tail[0..3] == RowWords(g.board[0]) && tail[3..6] == RowWords(g.board[1])
           && tail[6..9] == RowWords(g.board[2]);
    RowRoundTrip(g.board[0]);
    RowRoundTrip(g.board[1]);
    RowRoundTrip(g.board[2]);
  }

  lemma DecodeEncode(g: Game)
    requires g.Shaped()
    ensures Decode(Encode(g)) == g
  {
    var words, n, m := Encode(g), |g.participants|, |g.balances|;
    assert words[0] == n && words[n + 1] == m && |words| == n + m + 15;
    assert words[1..n + 1] == g.participants;
    assert words[n + 2..n + m + 2] == g.balances;
    assert words[n + m + 2..] == Tail(g);
    assert Naturals(g.balances) == g.balances;
    TailRoundTrip(g);
  }

  // ---------- the machine ----------

  /** What the manager sees of a removal: encoded states, and a revert that reaches the caller. */
  function RemoveWords(words: Bytes, a: Address): Outcome<Removal> {
    var g := Decode(words);
    if |g.participants| != |g.balances| then Revert
    else match RemoveParticipant(g, a)
      case Revert => Revert
      case Ok(left) => Ok(Removal(left.success, left.exit, Encode(left.game)))
  }

  /** A transaction is a move of its participant, or the call of a function that only looks. */
  predicate IsPlay(words: Bytes, tx: Transaction, after: Bytes, row: nat, col: nat) {
    after == words ||
    var moved := MakeMove(Decode(words), tx.header.participant, row, col);
    moved.Ok? && after == Encode(moved.value)
  }

  /** The machine of the channel is TicTacToe, which slashes by removing and lets nobody join. */
  ghost predicate IsTicTacToe(env: Env) {
    && D.RefusesJoins(env)
    && (forall words, a :: env.slash(words, a) == RemoveWords(words, a))
    && (forall words, a :: env.remove(words, a) == RemoveWords(words, a))
    && (forall words, tx :: env.step(words, tx).Some? ==>
          exists row: nat, col: nat :: IsPlay(words, tx, env.step(words, tx).value, row, col))
  }

  /** A body of two words is a move to that cell; any other looks at the board. */
  function Play(words: Bytes, tx: Transaction): Option<Bytes> {
    if |tx.body| != 2 then Some(words)
    else match MakeMove(Decode(words), tx.header.participant, Natural(tx.body[0]), Natural(tx.body[1]))
      case Revert => None
      case Ok(after) => Some(Encode(after))
  }

  /** Any environment with this machine in it. */
  function WithTicTacToe(env: Env): Env {
    env.(step := Play, participants := words => Decode(words).participants,
         nextToWrite := words => Decode(words).currentPlayer,
         join := (words, joinChannel) => Ok((false, words)), slash := RemoveWords, remove := RemoveWords)
  }

  lemma TicTacToeIsMachine(env: Env)
    ensures IsTicTacToe(WithTicTacToe(env))
  {
    forall words, tx | WithTicTacToe(env).step(words, tx).Some?
      ensures exists row: nat, col: nat :: IsPlay(words, tx, WithTicTacToe(env).step(words, tx).value, row, col)
    {
      var after := Play(words, tx).value;
      if |tx.body| != 2 {
        assert IsPlay(words, tx, after, 0, 0);
      } else {
        assert IsPlay(words, tx, after, Natural(tx.body[0]), Natural(tx.body[1]));
      }
    }
  }

  // ---------- a fork that plays ----------

  /** The words are a game in progress of the same two players, with the total and the bet of `g`. */
  ghost predicate StillPlays(words: Bytes, g: Game) {
    var h := Decode(words);
    && words == Encode(h) && Playing(h) && h.TwoPlayers() && g.TwoPlayers()
    && h.Total() == g.Total() && h.betAmount == g.betAmount
    && forall a :: a in h.participants <==> a in g.participants
  }

  lemma PlayKeeps(words: Bytes, tx: Transaction, after: Bytes, row: nat, col: nat, g: Game)
    requires StillPlays(words, g) && IsPlay(words, tx, after, row, col)
    ensures StillPlays(after, g)
  {
    if after != words {
      var h := Decode(words);
      MoveKeepsPlaying(h, tx.header.participant, row, col);
      DecodeEncode(MakeMove(h, tx.header.participant, row, col).value);
    }
  }

  lemma StepPlays(env: Env, before: Bytes, tx: Transaction, after: Bytes, g: Game)
    requires IsTicTacToe(env) && StillPlays(before, g) && env.step(before, tx) == Some(after)
    ensures StillPlays(after, g)
  {
    var row: nat, col: nat :| IsPlay(before, tx, env.step(before, tx).value, row, col);
    PlayKeeps(before, tx, after, row, col, g);
  }

  lemma StartPlays(g: Game)
    requires Playing(g)
    ensures StillPlays(Encode(g), g)
  {
    DecodeEncode(g);
  }

  /** Agreement `i` of the fork takes the machine from its state before to its state after. */
  ghost predicate Steps(env: Env, f: Fork, i: nat)
    requires i < |f.agreements|
  {
    env.step(f.StateAfter(i), f.agreements[i].block.transaction) == Some(f.StateAfter(i + 1))
  }

  lemma SoundForkSteps(c: Client, f: Fork, fork: nat, sound: nat)
    requires ForkSound(c, f, fork, sound)
    ensures forall i :: 0 <= i < sound ==> Steps(c.env, f, i)
  {
    forall i | 0 <= i < sound ensures Steps(c.env, f, i) {
      assert Executed(c.env, f, i);
    }
  }

  /** What the machine keeps holds all along a fork. */
  lemma {:induction false} KeptAlong(env: Env, f: Fork, kept: Bytes -> bool, n: nat)
    requires kept(f.genesis)
    requires forall before, tx, after :: kept(before) && env.step(before, tx) == Some(after) ==> kept(after)
    requires n <= |f.agreements| && forall i :: 0 <= i < n ==> Steps(env, f, i)
    ensures kept(f.StateAfter(n))
  {
    if n > 0 {
      KeptAlong(env, f, kept, n - 1);
      assert Steps(env, f, n - 1);
    }
  }

  /** Every state that a fork reaches by the machine is a game of the players the fork started with, and no
      money was made or lost. */
  lemma ForkPlays(env: Env, f: Fork, g: Game, n: nat)
    requires IsTicTacToe(env) && Playing(g) && f.genesis == Encode(g)
    requires n <= |f.agreements| && forall i :: 0 <= i < n ==> Steps(env, f, i)
    ensures StillPlays(f.StateAfter(n), g)
  {
    var kept: Bytes -> bool := words => StillPlays(words, g);
    StartPlays(g);
    forall before, tx, after | kept(before) && env.step(before, tx) == Some(after) ensures kept(after) {
      StepPlays(env, before, tx, after, g);
    }
    KeptAlong(env, f, kept, n);
  }

  /** The same on every run of a client, up to the fork's first failed execution. */
  lemma RunPlays(c: Client, machine: Bytes, steps: seq<Step>, fork: nat, g: Game, n: nat)
    requires IsTicTacToe(c.env) && c.OwnsSigner() && Playing(g)
    requires fork < |ReplicaRuns.Run(c, machine, steps).replica.forks|
             && n <= ReplicaRuns.Run(c, machine, steps).Sound(fork)
    requires ReplicaRuns.Run(c, machine, steps).replica.forks[fork].genesis == Encode(g)
    ensures n <= |ReplicaRuns.Run(c, machine, steps).replica.forks[fork].agreements|
    ensures StillPlays(ReplicaRuns.Run(c, machine, steps).replica.forks[fork].StateAfter(n), g)
  {
    var t := ReplicaRuns.Run(c, machine, steps);
    RunKeeps(c, machine, steps);
    assert ForkSound(c, t.replica.forks[fork], fork, t.Sound(fork));
    SoundForkSteps(c, t.replica.forks[fork], fork, t.Sound(fork));
    ForkPlays(c.env, t.replica.forks[fork], g, n);
  }
}
