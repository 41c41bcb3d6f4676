/** Two TicTacToe games that end in a draw bring a channel back to its genesis state, and the contract then reverts on
    the certificate of an honest client. */
module DrawnGames {
  import opened Types
  import D = DisputeRules
  import DR = DisputeRuns
  import opened ReplicaRules
  import R = ReplicaRuns
  import C = Certificates
  import opened ScriptedRuns
  import opened TicTacToe
  import opened TicTacToeChannel

  // ---------- one drawn game ----------

  /** The cells in the order in which they are taken. */
  const CELLS: seq<(nat, nat)> := [(0, 0), (0, 1), (0, 2), (1, 1), (1, 0), (1, 2), (2, 1), (2, 0), (2, 2)]

  /** The board after `n` of these moves. */
  function BoardAfter(n: nat): Board
    requires n <= 8
  {
    var taken := (cell: nat) => if cell < n then if cell % 2 == 0 then X else O else Empty;
    [[taken(0), taken(1), taken(2)], [taken(4), taken(3), taken(5)], [taken(7), taken(6), taken(8)]]
  }

  /** A game of `first` against `second` after `n` moves. */
  function Midway(first: Address, second: Address, balances: seq<nat>, n: nat): Game
    requires n <= 8
  {
    Game([first, second], balances, BoardAfter(n), if n % 2 == 0 then first else second, true, n, 1)
  }

  /** Eight moves on and on. */
  lemma GoesOn(first: Address, second: Address, balances: seq<nat>, n: nat)
    requires n < 8 && |balances| == 2 && first != second
    ensures var g := Midway(first, second, balances, n);
            MakeMove(g, g.currentPlayer, CELLS[n].0, CELLS[n].1) == Ok(Midway(first, second, balances, n + 1))
  {
    var g, row, col := Midway(first, second, balances, n), CELLS[n].0, CELLS[n].1;
    PutsMark(n);
    assert Marked(g, row, col).board == BoardAfter(n + 1);
    NobodyWins(n + 1, row, col);
  }

  lemma SameBoard(a: Board, b: Board)
    requires |a| == |b| == 3 && forall r :: 0 <= r < 3 ==> |a[r]| == |b[r]| == 3
    requires forall r, k :: 0 <= r < 3 && 0 <= k < 3 ==> a[r][k] == b[r][k]
    ensures a == b
  {
    forall r | 0 <= r < 3 ensures a[r] == b[r] {}
  }

  /** The mark of move `n`. */
  function MarkAt(n: nat): Cell { if n % 2 == 0 then X else O }

  lemma PutsMark(n: nat)
    requires n < 8
    ensures var row, col := CELLS[n].0, CELLS[n].1;
            && row < 3 && col < 3 && BoardAfter(n)[row][col] == Empty
            && Put(BoardAfter(n), row, col, MarkAt(n)) == BoardAfter(n + 1)
  {
    SameBoard(Put(BoardAfter(n), CELLS[n].0, CELLS[n].1, MarkAt(n)), BoardAfter(n + 1));
  }

  lemma NobodyWins(n: nat, row: nat, col: nat)
    requires n <= 8 && row < 3 && col < 3 && BoardAfter(n)[row][col] != Empty
    ensures !CheckWinner(BoardAfter(n), row, col)
  {}

  /** The ninth ends in a draw, and the players change seats. */
  lemma EndsInDraw(first: Address, second: Address, x: nat, y: nat)
    requires first != second
    ensures var g := Midway(first, second, [x, y], 8);
            MakeMove(g, first, 2, 2) == Ok(Midway(second, first, [y, x], 0))
  {
    var g := Midway(first, second, [x, y], 8);
    SameBoard(Marked(g, 2, 2).board, [[X, O, X], [X, O, O], [O, X, X]]);
    SameBoard(BoardAfter(0), EMPTY_BOARD);
    assert SwapSeats(g.participants) == [second, first] && SwapSeats(g.balances) == [y, x];
  }

  // ---------- two of them in a channel ----------

  /** The game after `n` moves: one game that `me` begins, one that `other` begins, and the first position again. */
  function Position(me: Address, other: Address, n: nat): Game
    requires n <= 18
  {
    if n < 9 then Midway(me, other, [5, 5], n)
    else if n < 18 then Midway(other, me, [5, 5], n - 9)
    else Midway(me, other, [5, 5], 0)
  }

  function TwoDraws(me: Address, other: Address): Script {
    Script(seq(19, n requires 0 <= n < 19 => Encode(Position(me, other, n))),
           seq(18, n requires 0 <= n < 18 => Position(me, other, n).currentPlayer),
           seq(18, n requires 0 <= n < 18 => [CELLS[n % 9].0, CELLS[n % 9].1]))
  }

  lemma NextInGame(first: Address, second: Address, n: nat)
    requires n < 9 && first != second
    ensures var g := Midway(first, second, [5, 5], n);
            MakeMove(g, g.currentPlayer, CELLS[n].0, CELLS[n].1) ==
            Ok(if n < 8 then Midway(first, second, [5, 5], n + 1) else Midway(second, first, [5, 5], 0))
  {
    if n < 8 { GoesOn(first, second, [5, 5], n); } else { EndsInDraw(first, second, 5, 5); }
  }

  lemma PositionIsShaped(me: Address, other: Address, n: nat)
    requires n <= 18
    ensures var g := Position(me, other, n); g.Shaped() && (g.currentPlayer == me || g.currentPlayer == other)
  {}

  /** The same move leads from equal games to equal games. */
  lemma SameMove(g: Game, h: Game, row: nat, col: nat, after: Game)
    requires g == h && g.Shaped() && MakeMove(h, h.currentPlayer, row, col) == Ok(after)
    ensures MakeMove(g, g.currentPlayer, row, col) == Ok(after)
  {}

  lemma NextPosition(me: Address, other: Address, n: nat)
    requires n < 18 && me != other && Position(me, other, n).Shaped()
    ensures var g := Position(me, other, n);
            MakeMove(g, g.currentPlayer, CELLS[n % 9].0, CELLS[n % 9].1) == Ok(Position(me, other, n + 1))
  {
    var first, second, k := if n < 9 then me else other, if n < 9 then other else me, n % 9;
    var after := if k < 8 then Midway(first, second, [5, 5], k + 1) else Midway(second, first, [5, 5], 0);
    assert Position(me, other, n + 1) == after;
    NextInGame(first, second, k);
    SameMove(Position(me, other, n), Midway(first, second, [5, 5], k), CELLS[k].0, CELLS[k].1, after);
  }

  lemma PlayedInWords(g: Game, tx: Transaction, row: nat, col: nat)
    requires g.Shaped() && tx.body == [row, col] && tx.header.participant == g.currentPlayer
    requires MakeMove(g, g.currentPlayer, row, col).Ok?
    ensures Play(Encode(g), tx) == Some(Encode(MakeMove(g, g.currentPlayer, row, col).value))
  {
    DecodeEncode(g);
  }

  lemma DrawIsLegal(c: Client, base: Env, other: Address, n: nat)
    requires c.env == WithTicTacToe(base) && c.me != other && n < 18
    ensures LegalMove(c, other, TwoDraws(c.me, other), n)
  {
    var s, g := TwoDraws(c.me, other), Position(c.me, other, n);
    PositionIsShaped(c.me, other, n);
    NextPosition(c.me, other, n);
    PlayedInWords(g, MoveTx(c, s, n), CELLS[n % 9].0, CELLS[n % 9].1);
    DecodeEncode(g);
  }

  /** A client plays two TicTacToe games to a draw against the other player. Whatever the hash of states, if it only
      tells the position before the last move from the first, the contract reverts on the client's certificate. */
  lemma TwoDrawsRefused(c: Client, base: Env, other: Address, theirs: Hash -> Signature)
    requires c.env == WithTicTacToe(base) && c.OwnsSigner() && c.me != other && c.times.p2p >= 1
    requires forall h :: c.env.recover(h, theirs(h)) == Some(other)
    requires var s := TwoDraws(c.me, other); c.env.keccak(s.states[17]) != c.env.keccak(s.states[0])
    ensures var s := TwoDraws(c.me, other);
            var f := ForkAfter(c, other, theirs, s, 18);
            var best := C.BestCertificate(c.env, f, c.me);
            && IsTicTacToe(c.env) && s.states[0] == s.states[18] == Encode(Position(c.me, other, 0))
            && R.Run(c, [], ScriptSteps(c, theirs, s)).replica.forks == [f]
            && D.FinalizedAndLatest(c.env, DR.Opened(c.channelId, c.times, 100, s.states[0]), 0, best.finalized,
                                    best.latest, best.votes, [c.me, other]) == Revert
  {
    var s := TwoDraws(c.me, other);
    TicTacToeIsMachine(base);
    DecodeEncode(Position(c.me, other, 0));
    forall n: nat | n < |s.authors| ensures LegalMove(c, other, s, n) { DrawIsLegal(c, base, other, n); }
    assert s.authors[17] == other;
    ReturnIsRefused(c, other, theirs, s);
  }
}
