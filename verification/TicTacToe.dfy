/** examples/TicTacToe/contracts/TicTacToe/TicTacToeStateMachine.sol: games played in a row for a bet. */
module TicTacToe {
  import opened Types

  datatype Cell = Empty | X | O

  type Board = seq<seq<Cell>>

  const EMPTY_BOARD: Board := [[Empty, Empty, Empty], [Empty, Empty, Empty], [Empty, Empty, Empty]]

  datatype Game = Game(
    participants: seq<Address>, balances: seq<nat>, board: Board,
    currentPlayer: Address, gameActive: bool, movesCount: nat, betAmount: nat)
  {
    predicate Shaped() {
      |board| == 3 && |board[0]| == 3 && |board[1]| == 3 && |board[2]| == 3
    }

    predicate TwoPlayers() {
      |participants| == 2 && |balances| == 2 && Shaped()
    }

    /** Lines 36-38. */
    function BalanceOf(a: Address): nat
      requires TwoPlayers()
    {
      balances[if a == participants[0] then 0 else 1]
    }

    function Total(): nat
      requires TwoPlayers()
    {
      balances[0] + balances[1]
    }

    function Opponent(a: Address): Address
      requires TwoPlayers()
    {
      if a == participants[0] then participants[1] else participants[0]
    }
  }

  function Min(a: nat, b: nat): nat { if a > b then b else a }

  function Put(board: Board, row: nat, col: nat, mark: Cell): Board
    requires row < |board| && col < |board[row]|
  {
    board[row := board[row][col := mark]]
  }

  // ---------- one move (lines 39-75) ----------

  /** Lines 77-110: only lines of the mark just played are looked for, and only some of them. */
  predicate CheckWinner(board: Board, row: nat, col: nat)
    requires |board| == 3 && |board[0]| == 3 && |board[1]| == 3 && |board[2]| == 3 && row < 3 && col < 3
  {
    var mark := board[row][col];
    || board[row][0] == board[row][1] == board[row][2] == mark
    || board[0][col] == board[1][col] == board[2][col] == mark
    || board[0][0] == board[1][1] == board[2][2] == mark
    || board[0][2] == board[1][1] == board[2][0] == mark
  }

  /** Lines 54-64. A missing balance reverts. */
  function Pay(g: Game, winner: nat): Outcome<Game>
    requires winner < 2
  {
    if |g.balances| < 2 then Revert
    else
      var loser := 1 - winner;
      var amount := Min(g.betAmount, g.balances[loser]);
      if g.balances[winner] + amount > UINT_MAX then Revert
      else Ok(g.(balances := g.balances[winner := g.balances[winner] + amount][loser := g.balances[loser] - amount]))
  }

  function SwapSeats<T>(seats: seq<T>): seq<T>
    requires |seats| >= 2
  {
    seats[0 := seats[1]][1 := seats[0]]
  }

  /** Lines 112-131: the players, and their balances with them, change seats. A missing player reverts. */
  function Reset(g: Game): Outcome<Game> {
    if |g.participants| < 2 || |g.balances| < 2 then Revert
    else Ok(Game(SwapSeats(g.participants), SwapSeats(g.balances), EMPTY_BOARD, g.participants[1], true, 0,
                 g.betAmount))
  }

  /** The mark of the player whose turn it is: X for the first seat. */
  function MarkOf(g: Game, player: Address): Cell
    requires g.participants != []
  {
    if player == g.participants[0] then X else O
  }

  /** The mark is on the board and the move is counted. */
  function Marked(g: Game, row: nat, col: nat): Game
    requires g.Shaped() && g.participants != [] && row < 3 && col < 3
  {
    g.(board := Put(g.board, row, col, MarkOf(g, g.currentPlayer)), movesCount := g.movesCount + 1)
  }

  function MakeMove(g: Game, player: Address, row: nat, col: nat): Outcome<Game>
    requires g.Shaped()
  {
    var turn := player == g.currentPlayer;
    :- Require(turn);
    :- Require(g.gameActive);
    :- Require(row < 3 && col < 3);
    if g.board[row][col] != Empty || g.participants == [] || g.movesCount + 1 > UINT_MAX then Revert
    else
      var moved := Marked(g, row, col);
      if CheckWinner(moved.board, row, col) then
        var paid :- Pay(moved, if moved.board[row][col] == X then 0 else 1);
        Reset(paid)
      else if moved.movesCount == 9 then Reset(moved)
      else if moved.movesCount % 2 >= |g.participants| then Revert
      else Ok(moved.(currentPlayer := g.participants[moved.movesCount % 2]))
  }

  // ---------- the rules of the game, stated on the whole board ----------

  /** `mark` holds a row, a column or a diagonal. */
  predicate HasLine(board: Board, mark: Cell)
    requires |board| == 3 && |board[0]| == 3 && |board[1]| == 3 && |board[2]| == 3
  {
    || board[0][0] == board[0][1] == board[0][2] == mark
    || board[1][0] == board[1][1] == board[1][2] == mark
    || board[2][0] == board[2][1] == board[2][2] == mark
    || board[0][0] == board[1][0] == board[2][0] == mark
    || board[0][1] == board[1][1] == board[2][1] == mark
    || board[0][2] == board[1][2] == board[2][2] == mark
    || board[0][0] == board[1][1] == board[2][2] == mark
    || board[0][2] == board[1][1] == board[2][0] == mark
  }

  function CountIn(cells: seq<Cell>, mark: Cell): nat
    requires |cells| == 3
  {
    (if cells[0] == mark then 1 else 0) + (if cells[1] == mark then 1 else 0) + (if cells[2] == mark then 1 else 0)
  }

  function Count(board: Board, mark: Cell): nat
    requires |board| == 3 && |board[0]| == 3 && |board[1]| == 3 && |board[2]| == 3
  {
    CountIn(board[0], mark) + CountIn(board[1], mark) + CountIn(board[2], mark)
  }

  /** X and O alternate: the counts stay in step with the number of moves. */
  predicate Alternate(board: Board, movesCount: nat)
    requires |board| == 3 && |board[0]| == 3 && |board[1]| == 3 && |board[2]| == 3
  {
    Count(board, X) + Count(board, O) == movesCount && Count(board, X) == Count(board, O) + movesCount % 2
  }

  predicate OpenBoard(board: Board, movesCount: nat)
    requires |board| == 3 && |board[0]| == 3 && |board[1]| == 3 && |board[2]| == 3
  {
    movesCount < 9 && Alternate(board, movesCount) && !HasLine(board, X) && !HasLine(board, O)
  }

  /** Two different players, an open game, the turn where the number of moves puts it, and no sum that overflows. */
  predicate Seated(g: Game) {
    && g.TwoPlayers() && g.participants[0] != g.participants[1]
    && g.gameActive && g.currentPlayer == g.participants[g.movesCount % 2]
    && g.Total() <= UINT_MAX
  }

  /** What holds between two moves. */
  predicate Playing(g: Game) {
    Seated(g) && OpenBoard(g.board, g.movesCount)
  }

  /** The state of a channel that opens with two different players and deposits that can be summed. */
  function NewGame(first: Address, second: Address, deposit1: nat, deposit2: nat, bet: nat): Game {
    Game([first, second], [deposit1, deposit2], EMPTY_BOARD, first, true, 0, bet)
  }

  // ---------- what a move does ----------

  lemma CountPut(board: Board, row: nat, col: nat, mark: Cell, m: Cell)
    requires |board| == 3 && |board[0]| == 3 && |board[1]| == 3 && |board[2]| == 3
    requires row < 3 && col < 3 && board[row][col] == Empty && mark != Empty && m != Empty
    ensures Count(Put(board, row, col, mark), m) == Count(board, m) + if m == mark then 1 else 0
  {}

  /** After a move on a board without lines, the local check finds exactly what a scan of the whole board for
      either mark would. */
  lemma CheckWinnerIsScan(board: Board, row: nat, col: nat, mark: Cell)
    requires |board| == 3 && |board[0]| == 3 && |board[1]| == 3 && |board[2]| == 3
    requires row < 3 && col < 3 && mark != Empty && board[row][col] == Empty
    requires !HasLine(board, X) && !HasLine(board, O)
    ensures var after := Put(board, row, col, mark);
            && (CheckWinner(after, row, col) <==> HasLine(after, X) || HasLine(after, O))
            && (CheckWinner(after, row, col) <==> HasLine(after, mark))
  {
    var after := Put(board, row, col, mark);
    forall m | m != Empty && HasLine(after, m) ensures m == mark && CheckWinner(after, row, col) {
      LineIsNew(board, row, col, mark, m);
    }
  }

  lemma LineIsNew(board: Board, row: nat, col: nat, mark: Cell, m: Cell)
    requires |board| == 3 && |board[0]| == 3 && |board[1]| == 3 && |board[2]| == 3
    requires row < 3 && col < 3 && mark != Empty && m != Empty && board[row][col] == Empty
    requires !HasLine(board, m) && HasLine(Put(board, row, col, mark), m)
    ensures m == mark && CheckWinner(Put(board, row, col, mark), row, col)
  {}

  /** Exactly the moves the rules allow are accepted; no sum overflows. */
  lemma MoveIsAccepted(g: Game, player: Address, row: nat, col: nat)
    requires Playing(g)
    ensures MakeMove(g, player, row, col).Ok? <==>
            player == g.currentPlayer && row < 3 && col < 3 && g.board[row][col] == Empty
  {}

  /** The game after the seat `winner` was paid. */
  function Won(g: Game, winner: nat): Game
    requires g.TwoPlayers() && winner < 2
  {
    var amount := Min(g.betAmount, g.balances[1 - winner]);
    g.(balances := if winner == 0 then [g.balances[0] + amount, g.balances[1] - amount]
                   else [g.balances[0] - amount, g.balances[1] + amount])
  }

  lemma PayNeverReverts(g: Game, winner: nat)
    requires g.TwoPlayers() && winner < 2 && g.Total() <= UINT_MAX
    ensures Pay(g, winner) == Ok(Won(g, winner))
  {
    assert Pay(g, winner).value.balances == Won(g, winner).balances;
  }

  /** The game after a decided or drawn one. */
  function NextGame(g: Game): Game
    requires g.TwoPlayers()
  {
    NewGame(g.participants[1], g.participants[0], g.balances[1], g.balances[0], g.betAmount)
  }

  lemma ResetIsNextGame(g: Game)
    requires g.TwoPlayers()
    ensures Reset(g) == Ok(NextGame(g))
  {
    assert SwapSeats(g.participants) == [g.participants[1], g.participants[0]];
    assert SwapSeats(g.balances) == [g.balances[1], g.balances[0]];
  }

  datatype Ending = Decided | Draw | GoesOn

  /** How a move on (row, col) leaves the board, judged on the whole board. */
  function EndingOf(g: Game, row: nat, col: nat): Ending
    requires g.TwoPlayers() && row < 3 && col < 3
  {
    var board := Marked(g, row, col).board;
    if HasLine(board, X) || HasLine(board, O) then Decided else if g.movesCount == 8 then Draw else GoesOn
  }

  /** The rules of the game. */
  function AfterMove(g: Game, row: nat, col: nat, ending: Ending): Game
    requires g.TwoPlayers() && row < 3 && col < 3
  {
    var moved := Marked(g, row, col);
    match ending
    case Decided => NextGame(Won(moved, g.movesCount % 2))
    case Draw => NextGame(moved)
    case GoesOn => moved.(currentPlayer := g.Opponent(g.currentPlayer))
  }

  lemma TurnIsMark(g: Game)
    requires Seated(g)
    ensures MarkOf(g, g.currentPlayer) == if g.movesCount % 2 == 0 then X else O
    ensures g.participants[(g.movesCount + 1) % 2] == g.Opponent(g.currentPlayer)
  {}

  lemma CheckIsEnding(g: Game, row: nat, col: nat)
    requires Playing(g) && row < 3 && col < 3 && g.board[row][col] == Empty
    ensures CheckWinner(Marked(g, row, col).board, row, col) <==> EndingOf(g, row, col) == Decided
  {
    CheckWinnerIsScan(g.board, row, col, MarkOf(g, g.currentPlayer));
  }

  lemma MarkedCell(g: Game, row: nat, col: nat)
    requires Seated(g) && row < 3 && col < 3
    ensures Marked(g, row, col).board[row][col] == if g.movesCount % 2 == 0 then X else O
  {}

  /** The contract's move follows the rules. */
  lemma MoveOutcome(g: Game, player: Address, row: nat, col: nat)
    requires Playing(g) && MakeMove(g, player, row, col).Ok?
    ensures player == g.currentPlayer && row < 3 && col < 3 && g.board[row][col] == Empty
    ensures MakeMove(g, player, row, col).value == AfterMove(g, row, col, EndingOf(g, row, col))
  {
    TurnIsMark(g);
    CheckIsEnding(g, row, col);
    MarkedCell(g, row, col);
    var moved := Marked(g, row, col);
    PayNeverReverts(moved, g.movesCount % 2);
    ResetIsNextGame(Won(moved, g.movesCount % 2));
    ResetIsNextGame(moved);
  }

  lemma NewGamePlays(first: Address, second: Address, deposit1: nat, deposit2: nat, bet: nat)
    requires first != second && deposit1 + deposit2 <= UINT_MAX
    ensures Playing(NewGame(first, second, deposit1, deposit2, bet))
  {}

  lemma PutAlternates(board: Board, movesCount: nat, row: nat, col: nat)
    requires |board| == 3 && |board[0]| == 3 && |board[1]| == 3 && |board[2]| == 3
    requires Alternate(board, movesCount) && row < 3 && col < 3 && board[row][col] == Empty
    ensures Alternate(Put(board, row, col, if movesCount % 2 == 0 then X else O), movesCount + 1)
  {
    var mark := if movesCount % 2 == 0 then X else O;
    CountPut(board, row, col, mark, X);
    CountPut(board, row, col, mark, O);
  }

  lemma GoingOnSeats(g: Game, row: nat, col: nat)
    requires Seated(g) && row < 3 && col < 3
    ensures Seated(AfterMove(g, row, col, GoesOn))
    ensures AfterMove(g, row, col, GoesOn).movesCount == g.movesCount + 1
    ensures AfterMove(g, row, col, GoesOn).board == Put(g.board, row, col, if g.movesCount % 2 == 0 then X else O)
  {}

  /** Boards alone: a move that ends nothing leaves the board open. */
  lemma StaysOpen(board: Board, movesCount: nat, row: nat, col: nat, after: Board)
    requires |board| == 3 && |board[0]| == 3 && |board[1]| == 3 && |board[2]| == 3
    requires OpenBoard(board, movesCount) && row < 3 && col < 3 && board[row][col] == Empty
    requires after == Put(board, row, col, if movesCount % 2 == 0 then X else O)
    requires movesCount != 8 && !HasLine(after, X) && !HasLine(after, O)
    ensures OpenBoard(after, movesCount + 1)
  {
    PutAlternates(board, movesCount, row, col);
  }

  lemma GoingOnKeepsPlaying(g: Game, row: nat, col: nat)
    requires Playing(g) && row < 3 && col < 3 && g.board[row][col] == Empty && EndingOf(g, row, col) == GoesOn
    ensures Playing(AfterMove(g, row, col, GoesOn))
  {
    GoingOnSeats(g, row, col);
    StaysOpen(g.board, g.movesCount, row, col, AfterMove(g, row, col, GoesOn).board);
  }

  /** Whatever the ending, the total, the bet and the two players stay; an ended game is followed by a new one. */
  lemma AfterMoveKeeps(g: Game, row: nat, col: nat, ending: Ending)
    requires Seated(g) && row < 3 && col < 3
    ensures var after := AfterMove(g, row, col, ending);
            && after.TwoPlayers() && after.Total() == g.Total() && after.betAmount == g.betAmount
            && (forall a :: a in after.participants <==> a in g.participants)
            && (ending != GoesOn ==>
                  after == NewGame(g.participants[1], g.participants[0], after.balances[0], after.balances[1],
                                   g.betAmount))
  {}

  lemma MoveKeepsPlaying(g: Game, player: Address, row: nat, col: nat)
    requires Playing(g) && MakeMove(g, player, row, col).Ok?
    ensures var after := MakeMove(g, player, row, col).value;
            Playing(after) && after.Total() == g.Total() && after.betAmount == g.betAmount
            && (forall a :: a in after.participants <==> a in g.participants)
  {
    MoveOutcome(g, player, row, col);
    var ending := EndingOf(g, row, col);
    var after := AfterMove(g, row, col, ending);
    AfterMoveKeeps(g, row, col, ending);
    if ending == GoesOn {
      GoingOnKeepsPlaying(g, row, col);
    } else {
      NewGamePlays(g.participants[1], g.participants[0], after.balances[0], after.balances[1], g.betAmount);
    }
  }

  lemma AfterMoveMovesBet(g: Game, row: nat, col: nat, ending: Ending)
    requires Seated(g) && row < 3 && col < 3
    ensures var after, winner := AfterMove(g, row, col, ending), g.currentPlayer;
            var loser := g.Opponent(winner);
            var amount := if ending == Decided then Min(g.betAmount, g.BalanceOf(loser)) else 0;
            && after.TwoPlayers()
            && after.BalanceOf(winner) == g.BalanceOf(winner) + amount
            && after.BalanceOf(loser) == g.BalanceOf(loser) - amount
            && (ending != GoesOn ==>
                  after == NewGame(g.participants[1], g.participants[0], after.balances[0], after.balances[1],
                                   g.betAmount))
  {}

  /** The player who completes a line takes min(bet, loser's balance) from the other player's address, although
      both then change seats; any other move leaves every balance where it is. A decided or drawn game is
      followed by a new one with the seats changed. */
  lemma MoveMovesBet(g: Game, player: Address, row: nat, col: nat)
    requires Playing(g) && MakeMove(g, player, row, col).Ok?
    ensures row < 3 && col < 3
    ensures var after, ending := MakeMove(g, player, row, col).value, EndingOf(g, row, col);
            var loser := g.Opponent(player);
            var amount := if ending == Decided then Min(g.betAmount, g.BalanceOf(loser)) else 0;
            && after.TwoPlayers()
            && after.BalanceOf(player) == g.BalanceOf(player) + amount
            && after.BalanceOf(loser) == g.BalanceOf(loser) - amount
            && (ending != GoesOn ==>
                  after == NewGame(g.participants[1], g.participants[0], after.balances[0], after.balances[1],
                                   g.betAmount))
  {
    MoveOutcome(g, player, row, col);
    AfterMoveMovesBet(g, row, col, EndingOf(g, row, col));
  }

  // ---------- whole runs ----------

  datatype Move = Move(player: Address, row: nat, col: nat)

  /** Any moves by anyone; a reverted move changes nothing. */
  function Run(g: Game, moves: seq<Move>): (after: Game)
    requires Playing(g)
    ensures Playing(after) && after.Total() == g.Total() && after.betAmount == g.betAmount
    ensures forall a :: a in after.participants <==> a in g.participants
  {
    if moves == [] then g
    else
      var before, move := Run(g, moves[..|moves| - 1]), moves[|moves| - 1];
      match MakeMove(before, move.player, move.row, move.col)
      case Revert => before
      case Ok(after) =>
        MoveKeepsPlaying(before, move.player, move.row, move.col);
        after
  }

  /** What `a` gains by the move: the bet when it completes a line, minus the bet when the other player does. */
  function Gain(g: Game, move: Move, a: Address): int
    requires g.TwoPlayers()
  {
    if MakeMove(g, move.player, move.row, move.col).Ok? && EndingOf(g, move.row, move.col) == Decided then
      var amount: int := Min(g.betAmount, g.BalanceOf(g.Opponent(move.player)));
      if a == move.player then amount else -amount
    else 0
  }

  function Winnings(g: Game, moves: seq<Move>, a: Address): int
    requires Playing(g)
  {
    if moves == [] then 0
    else Winnings(g, moves[..|moves| - 1], a) + Gain(Run(g, moves[..|moves| - 1]), moves[|moves| - 1], a)
  }

  lemma OneOfTwo(g: Game, player: Address, a: Address)
    requires Seated(g) && a in g.participants && player in g.participants
    ensures a == player || a == g.Opponent(player)
    ensures player != g.Opponent(player)
  {}

  lemma MoveGains(g: Game, move: Move, a: Address)
    requires Playing(g) && a in g.participants && MakeMove(g, move.player, move.row, move.col).Ok?
    ensures MakeMove(g, move.player, move.row, move.col).value.TwoPlayers()
    ensures MakeMove(g, move.player, move.row, move.col).value.BalanceOf(a) == g.BalanceOf(a) + Gain(g, move, a)
  {
    OneOfTwo(g, move.player, a);
    MoveMovesBet(g, move.player, move.row, move.col);
  }

  /** Over any run, however often the seats change, each player's balance is its deposit plus its winnings. */
  lemma {:induction false} RunMovesBets(g: Game, moves: seq<Move>, a: Address)
    requires Playing(g) && a in g.participants
    ensures Run(g, moves).BalanceOf(a) == g.BalanceOf(a) + Winnings(g, moves, a)
  {
    if moves != [] {
      var before, move := Run(g, moves[..|moves| - 1]), moves[|moves| - 1];
      RunMovesBets(g, moves[..|moves| - 1], a);
      if MakeMove(before, move.player, move.row, move.col).Ok? { MoveGains(before, move, a); }
    }
  }

  // ---------- leaving (lines 169-192) ----------

  datatype Departure = Departure(success: bool, exit: ProcessExit, game: Game)

  /** The bet goes to the other seat before the player leaves with the rest. An access outside the balances
      reverts, and so does a sum beyond 2^256. */
  function Depart(g: Game, i: nat): Outcome<Departure>
    requires |g.participants| == |g.balances| && i < |g.participants|
  {
    var length, other, amount := |g.participants|, (i + 1) % 2, Min(g.betAmount, g.balances[i]);
    var balances := g.balances[i := g.balances[i] - amount];
    if other >= length || balances[other] + amount > UINT_MAX then Revert
    else
      var paid := balances[other := balances[other] + amount];
      Ok(Departure(true, ProcessExit(g.participants[i], paid[i]),
                   g.(participants := g.participants[i := g.participants[length - 1]][..length - 1],
                      balances := paid[i := paid[length - 1]][..length - 1])))
  }

  function RemoveParticipant(g: Game, a: Address): Outcome<Departure>
    requires |g.participants| == |g.balances|
  {
    var i := FirstAt(g.participants, a, |g.participants|);
    if i == |g.participants| then Ok(Departure(false, NO_EXIT, g)) else Depart(g, i)
  }

  /** The first player to leave pays the bet, and the exit and what remains are the whole total. */
  lemma FirstRemoval(g: Game, a: Address)
    requires Playing(g) && a in g.participants
    ensures var left := RemoveParticipant(g, a);
            && left.Ok? && left.value.success
            && left.value.exit == ProcessExit(a, g.BalanceOf(a) - Min(g.betAmount, g.BalanceOf(a)))
            && left.value.game.participants == [g.Opponent(a)]
            && left.value.game.balances == [g.Total() - left.value.exit.amount]
  {}

  /** The last player can not be removed: every such call reverts, and with it the dispute that makes it. */
  lemma LastRemovalReverts(g: Game, a: Address)
    requires |g.participants| == |g.balances| == 1
    ensures RemoveParticipant(g, a) == if a == g.participants[0] then Revert else Ok(Departure(false, NO_EXIT, g))
  {}

  // ---------- the contract ----------

  class Contract {
    var participants: seq<Address>
    var balances: seq<nat>
    const board: array2<Cell>
    var currentPlayer: Address
    var gameActive: bool
    var movesCount: nat
    var betAmount: nat

    predicate Valid()
      reads this
    {
      board.Length0 == 3 && board.Length1 == 3
    }

    function BoardView(): Board
      requires Valid()
      reads this, board
    {
      [[board[0, 0], board[0, 1], board[0, 2]], [board[1, 0], board[1, 1], board[1, 2]],
       [board[2, 0], board[2, 1], board[2, 2]]]
    }

    function View(): Game
      requires Valid()
      reads this, board
    {
      Game(participants, balances, BoardView(), currentPlayer, gameActive, movesCount, betAmount)
    }

    constructor (first: Address, second: Address, deposit1: nat, deposit2: nat, bet: nat)
      ensures Valid() && fresh(board) && View() == NewGame(first, second, deposit1, deposit2, bet)
    {
      board := new Cell[3, 3]((i, j) => Empty);
      participants, balances := [first, second], [deposit1, deposit2];
      currentPlayer, gameActive, movesCount, betAmount := first, true, 0, bet;
    }

    method ClearBoard()
      requires Valid()
      modifies board
      ensures BoardView() == EMPTY_BOARD
    {
      for i := 0 to 3
        invariant forall k, l :: 0 <= k < i && 0 <= l < 3 ==> board[k, l] == Empty
      {
        for j := 0 to 3
          invariant forall k, l :: 0 <= k < i && 0 <= l < 3 ==> board[k, l] == Empty
          invariant forall l :: 0 <= l < j ==> board[i, l] == Empty
        {
          board[i, j] := Empty;
        }
      }
    }

    method ResetGame() returns (ok: bool)
      requires Valid()
      modifies this, board
      ensures match Reset(old(View()))
              case Revert => !ok
              case Ok(after) => ok && View() == after
    {
      ClearBoard();
      if |participants| < 2 || |balances| < 2 { return false; }
      var t := participants[0];
      participants := participants[0 := participants[1]];
      participants := participants[1 := t];
      var b := balances[0];
      balances := balances[0 := balances[1]];
      balances := balances[1 := b];
      currentPlayer, gameActive, movesCount := participants[0], true, 0;
      return true;
    }

    method PayBet(winner: nat) returns (ok: bool)
      requires Valid() && winner < 2
      modifies `balances
      ensures match Pay(old(View()), winner)
              case Ok(paid) => ok && View() == paid
              case Revert => !ok && View() == old(View())
    {
      if |balances| < 2 { return false; }
      var loser := 1 - winner;
      var amount := if betAmount > balances[loser] then balances[loser] else betAmount;
      if balances[winner] + amount > UINT_MAX { return false; }
      balances := balances[winner := balances[winner] + amount];
      balances := balances[loser := balances[loser] - amount];
      return true;
    }

    method PutMark(row: nat, col: nat, mark: Cell)
      requires Valid() && row < 3 && col < 3
      modifies board
      ensures BoardView() == Put(old(BoardView()), row, col, mark)
    {
      board[row, col] := mark;
      ghost var after := Put(old(BoardView()), row, col, mark);
      assert BoardView()[0] == after[0] && BoardView()[1] == after[1] && BoardView()[2] == after[2];
    }

    /** Lines 53-65. */
    method EndWithWinner(winner: nat) returns (ok: bool)
      requires Valid() && winner < 2
      modifies this, board
      ensures match Pay(old(View()), winner)
              case Revert => !ok
              case Ok(paid) => ok == Reset(paid).Ok? && (ok ==> View() == Reset(paid).value)
    {
      gameActive := false;
      ok := PayBet(winner);
      if ok { ok := ResetGame(); }
    }

    /** `player` is the participant named by the transaction being executed. False stands for a revert, which
        discards the writes of the call. */
    method Play(player: Address, row: nat, col: nat) returns (ok: bool)
      requires Valid()
      modifies this, board
      ensures ok <==> MakeMove(old(View()), player, row, col).Ok?
      ensures ok ==> View() == MakeMove(old(View()), player, row, col).value
    {
      if player != currentPlayer || !gameActive || row >= 3 || col >= 3 { return false; }
      if board[row, col] != Empty || participants == [] || movesCount + 1 > UINT_MAX { return false; }
      PutMark(row, col, if currentPlayer == participants[0] then X else O);
      movesCount := movesCount + 1;
      assert View() == Marked(old(View()), row, col);
      if CheckWinner(BoardView(), row, col) {
        ok := EndWithWinner(if board[row, col] == X then 0 else 1);
      } else if movesCount == 9 {
        gameActive := false;
        ok := ResetGame();
      } else if movesCount % 2 < |participants| {
        currentPlayer := participants[movesCount % 2];
        ok := true;
      } else {
        ok := false;
      }
    }

    method Vacate(i: nat) returns (r: Outcome<ProcessExit>)
      requires Valid() && |participants| == |balances| && i < |participants|
      modifies `participants, `balances
      ensures match Depart(old(View()), i)
              case Revert => r == Revert
              case Ok(left) => r == Ok(left.exit) && View() == left.game
    {
      var length := |participants|;
      var amount := if betAmount > balances[i] then balances[i] else betAmount;
      balances := balances[i := balances[i] - amount];
      var other := (i + 1) % 2;
      if other >= length || balances[other] + amount > UINT_MAX { return Revert; }
      balances := balances[other := balances[other] + amount];
      r := Ok(ProcessExit(participants[i], balances[i]));
      participants := participants[i := participants[length - 1]];
      participants := participants[..length - 1];
      balances := balances[i := balances[length - 1]];
      balances := balances[..length - 1];
    }

    method Leave(a: Address) returns (r: Outcome<(bool, ProcessExit)>)
      requires Valid() && |participants| == |balances|
      modifies this
      ensures match RemoveParticipant(old(View()), a)
              case Revert => r == Revert
              case Ok(left) => r == Ok((left.success, left.exit)) && View() == left.game
    {
      for i := 0 to |participants|
        invariant View() == old(View())
        invariant a !in participants[..i]
      {
        if participants[i] == a {
          assert FirstAt(participants, a, |participants|) == i;
          var exit :- Vacate(i);
          return Ok((true, exit));
        }
      }
      return Ok((false, NO_EXIT));
    }
  }
}
