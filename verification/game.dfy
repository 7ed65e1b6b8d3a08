/** The authoritative tic-tac-toe state a room keeps (`game_state` in
    app.py) and the pure rules over it: `check_winner` and the validation and
    update steps of a move. */
module Game {
  import opened Wrappers
  import opened Types

  datatype Symbol = X | O

  /** A board slot: Python's `None`, `'X'` or `'O'`. */
  type Cell = Option<Symbol>

  /** `[None] * 9`, filled in place, row by row. */
  type Board = b: seq<Cell> | |b| == 9 witness [None, None, None, None, None, None, None, None, None]

  const EmptyBoard: Board := [None, None, None, None, None, None, None, None, None]

  /** The `winner` field: `None`, a symbol, or the string `"tie"`. */
  datatype Winner = NoWinner | Won(symbol: Symbol) | Tie

  datatype GameState = GameState(
    board: Board,
    current: Option<PlayerId>,
    active: bool,
    winner: Winner,
    moves: nat)

  /** The state a room is created with, and the one `reset_game` restores. */
  const Initial: GameState := GameState(EmptyBoard, None, false, NoWinner, 0)

  /** The number of non-empty cells. */
  function Filled(cells: seq<Cell>): (n: nat)
    ensures n <= |cells|
    ensures n == 0 <==> forall i :: 0 <= i < |cells| ==> cells[i].None?
    ensures n == |cells| <==> forall i :: 0 <= i < |cells| ==> cells[i].Some?
  {
    if |cells| == 0 then 0
    else (if cells[0].Some? then 1 else 0) + Filled(cells[1..])
  }

  /** Writing a symbol into an empty cell fills exactly one more cell. */
  lemma {:induction false} FillOne(cells: seq<Cell>, i: nat, s: Symbol)
    requires i < |cells| && cells[i].None?
    ensures Filled(cells[i := Some(s)]) == Filled(cells) + 1
  {
    if i == 0 {
      assert cells[i := Some(s)][1..] == cells[1..];
    } else {
      assert cells[i := Some(s)][1..] == cells[1..][i - 1 := Some(s)];
      FillOne(cells[1..], i - 1, s);
    }
  }

  /** The eight winning patterns in the order they are tried: the rows, then
      the columns, then the two diagonals. */
  function Pattern(k: nat): (p: (nat, nat, nat))
    requires k < 8
    ensures p.0 < 9 && p.1 < 9 && p.2 < 9
  {
    if k == 0 then (0, 1, 2)
    else if k == 1 then (3, 4, 5)
    else if k == 2 then (6, 7, 8)
    else if k == 3 then (0, 3, 6)
    else if k == 4 then (1, 4, 7)
    else if k == 5 then (2, 5, 8)
    else if k == 6 then (0, 4, 8)
    else (2, 4, 6)
  }

  /** The symbol filling all three cells of pattern `k`, if there is one. */
  function LineOwner(b: Board, k: nat): Option<Symbol>
    requires k < 8
  {
    var (p, q, r) := Pattern(k);
    if b[p].Some? && b[p] == b[q] && b[q] == b[r] then b[p] else None
  }

  /** Some pattern is filled with `s`. */
  ghost predicate HasLine(b: Board, s: Symbol)
  {
    exists k :: 0 <= k < 8 && LineOwner(b, k) == Some(s)
  }

  /** The first complete pattern at or after `k`, or 8 when there is none. */
  function FirstLine(b: Board, k: nat): (j: nat)
    requires k <= 8
    ensures k <= j <= 8
    ensures forall i :: k <= i < j ==> LineOwner(b, i).None?
    ensures j < 8 ==> LineOwner(b, j).Some?
    decreases 8 - k
  {
    if k == 8 then 8
    else if LineOwner(b, k).Some? then k
    else FirstLine(b, k + 1)
  }

  /** `check_winner`: the symbol of the first complete pattern, else `None`. */
  function CheckWinner(b: Board): (w: Option<Symbol>)
    ensures w.None? <==> forall k :: 0 <= k < 8 ==> LineOwner(b, k).None?
    ensures w.Some? ==> exists k :: 0 <= k < 8 && LineOwner(b, k) == w
                          && forall i :: 0 <= i < k ==> LineOwner(b, i).None?
  {
    var j := FirstLine(b, 0);
    if j < 8 then LineOwner(b, j) else None
  }

  /** A board has a winner exactly when one of the symbols has a line, and
      the winner reported is a symbol that has one. */
  lemma CheckWinnerFindsLines(b: Board)
    ensures CheckWinner(b).None? <==> !HasLine(b, X) && !HasLine(b, O)
    ensures CheckWinner(b).Some? ==> HasLine(b, CheckWinner(b).value)
  {
    if CheckWinner(b).Some? {
      var k :| 0 <= k < 8 && LineOwner(b, k) == CheckWinner(b)
                && forall i :: 0 <= i < k ==> LineOwner(b, i).None?;
      assert HasLine(b, CheckWinner(b).value);
      assert HasLine(b, X) || HasLine(b, O) by {
        if CheckWinner(b).value == X { assert HasLine(b, X); } else { assert HasLine(b, O); }
      }
    }
  }

  /** The player to move may write into the chosen empty cell of an active game. */
  predicate Playable(g: GameState, pid: PlayerId, index: nat)
    requires index < 9
  {
    g.active && g.current == Some(pid) && g.board[index].None?
  }

  /** X for the room's first member, O for anybody else. */
  function SymbolOf(order: seq<PlayerId>, pid: PlayerId): Symbol
    requires |order| > 0
  {
    if order[0] == pid then X else O
  }

  /** `player_list[(player_list.index(pid) + 1) % 2]` in a two-member room. */
  function NextPlayer(order: seq<PlayerId>, pid: PlayerId): (next: PlayerId)
    requires |order| == 2 && pid in order
    ensures next in order
    ensures order[0] != order[1] ==> next != pid
  {
    if order[0] == pid then order[1] else order[0]
  }

  /** The move wrote `s` into the empty cell `index`, touched no other cell,
      and counted itself. */
  ghost predicate Placed(g: GameState, g': GameState, index: nat, s: Symbol)
    requires index < 9
  {
    && g.board[index].None?
    && g'.board[index] == Some(s)
    && (forall i :: 0 <= i < 9 && i != index ==> g'.board[i] == g.board[i])
    && g'.moves == g.moves + 1
  }

  /** After a move: a completed line ends the game with its symbol; otherwise
      a ninth move ends it in a tie; otherwise play passes to `next`. */
  ghost predicate Concluded(g': GameState, next: PlayerId, winnerBefore: Winner)
  {
    match CheckWinner(g'.board)
    case Some(s) => g'.winner == Won(s) && !g'.active && g'.current.None?
    case None =>
      if g'.moves >= 9 then g'.winner == Tie && !g'.active && g'.current.None?
      else g'.active && g'.current == Some(next) && g'.winner == winnerBefore
  }

  /** The validation and update steps of `make_move` on one room's game.
      `order` is the room's member list. The source raises, half-way through
      the update, unless the mover is one of exactly two members, so a move
      that passes validation requires that. */
  function Play(g: GameState, order: seq<PlayerId>, pid: PlayerId, index: nat): (r: Result<GameState, Error>)
    requires index < 9
    requires Playable(g, pid, index) ==> |order| == 2 && pid in order
    ensures !g.active ==> r == Failure(GameNotActive)
    ensures g.active && g.current != Some(pid) ==> r == Failure(NotYourTurn)
    ensures g.active && g.current == Some(pid) && g.board[index].Some? ==> r == Failure(CellOccupied)
    ensures r.Success? <==> Playable(g, pid, index)
    ensures r.Success? ==> && Placed(g, r.value, index, SymbolOf(order, pid))
                           && Concluded(r.value, NextPlayer(order, pid), g.winner)
  {
    if !g.active then Failure(GameNotActive)
    else if g.current != Some(pid) then Failure(NotYourTurn)
    else if g.board[index].Some? then Failure(CellOccupied)
    else
      var board: Board := g.board[index := Some(SymbolOf(order, pid))];
      var moves := g.moves + 1;
      match CheckWinner(board)
      case Some(s) => Success(GameState(board, None, false, Won(s), moves))
      case None =>
        if moves >= 9 then Success(GameState(board, None, false, Tie, moves))
        else Success(GameState(board, Some(NextPlayer(order, pid)), true, g.winner, moves))
  }

  /** The move counter counts the filled cells. */
  ghost predicate Counted(g: GameState)
  {
    g.moves == Filled(g.board)
  }

  /** Every accepted move keeps the move counter equal to the number of
      filled cells, and a game is never both over and still running. */
  lemma PlayKeepsCount(g: GameState, order: seq<PlayerId>, pid: PlayerId, index: nat)
    requires index < 9
    requires Playable(g, pid, index) ==> |order| == 2 && pid in order
    requires Counted(g)
    requires Play(g, order, pid, index).Success?
    ensures Counted(Play(g, order, pid, index).value)
    ensures Play(g, order, pid, index).value.moves <= 9
  {
    var g' := Play(g, order, pid, index).value;
    FillOne(g.board, index, SymbolOf(order, pid));
    assert g'.board == g.board[index := Some(SymbolOf(order, pid))];
  }

  /** Once a game is not active, every move is rejected, so the board, the
      counter, the winner and the turn are frozen until a reset. */
  lemma InactiveGameIsFrozen(g: GameState, order: seq<PlayerId>, pid: PlayerId, index: nat)
    requires index < 9 && !g.active
    ensures Play(g, order, pid, index) == Failure(GameNotActive)
  {
  }

  /** On a board with no line, a move can only complete lines of the mover's
      own symbol: the winner it produces, if any, is the mover. */
  lemma {:induction false} OnlyTheMoverCanWin(b: Board, index: nat, s: Symbol)
    requires index < 9 && CheckWinner(b).None?
    ensures CheckWinner(b[index := Some(s)]) in {None, Some(s)}
  {
    var b': Board := b[index := Some(s)];
    forall k | 0 <= k < 8 && LineOwner(b', k).Some?
      ensures LineOwner(b', k) == Some(s)
    {
      assert LineOwner(b, k).None?;
    }
  }

  /** A move that completes a line for the mover ends the game at once with
      the mover as winner, whatever the number of moves. */
  lemma {:induction false} CompletingALineWins(g: GameState, order: seq<PlayerId>, pid: PlayerId, index: nat, k: nat)
    requires index < 9 && k < 8
    requires Playable(g, pid, index) && |order| == 2 && pid in order
    requires CheckWinner(g.board).None?
    requires LineOwner(g.board[index := Some(SymbolOf(order, pid))], k) == Some(SymbolOf(order, pid))
    ensures Play(g, order, pid, index).Success?
    ensures Play(g, order, pid, index).value.winner == Won(SymbolOf(order, pid))
    ensures !Play(g, order, pid, index).value.active
  {
    var s := SymbolOf(order, pid);
    var b': Board := g.board[index := Some(s)];
    OnlyTheMoverCanWin(g.board, index, s);
    assert CheckWinner(b').Some?;
  }

  /** A ninth move that completes no line ends the game in a tie: the board
      is then full. */
  lemma {:induction false} NinthMoveTies(g: GameState, order: seq<PlayerId>, pid: PlayerId, index: nat)
    requires index < 9
    requires Playable(g, pid, index) && |order| == 2 && pid in order
    requires Counted(g) && g.moves == 8
    requires CheckWinner(g.board[index := Some(SymbolOf(order, pid))]).None?
    ensures Play(g, order, pid, index).Success?
    ensures Play(g, order, pid, index) == Success(GameState(g.board[index := Some(SymbolOf(order, pid))], None, false, Tie, 9))
    ensures forall i :: 0 <= i < 9 ==> Play(g, order, pid, index).value.board[i].Some?
  {
    PlayKeepsCount(g, order, pid, index);
  }
}
