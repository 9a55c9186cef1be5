/** The tic-tac-toe engine: the 8-line winner check, the greedy bot and the
    click handler with turn alternation (src/components/TicTacToe.jsx). */
module TicTacToe {
  import opened Wrappers

  datatype Mark = X | O

  /** Nine cells in row-major order; None is an empty cell (null in the source). */
  type Board = seq<Option<Mark>>

  /** Three cell indices forming a row, a column or a diagonal. */
  datatype Line = Line(a: nat, b: nat, c: nat)

  /** What calculateWinner returns when it finds a line: the mark and the line. */
  datatype Win = Win(winner: Mark, line: Line)

  datatype Mode = Pvp | Bot

  /** The status line shown under the board. */
  datatype Status = Winner(mark: Mark) | Draw | Turn(next: Mark)

  const Combos: seq<Line> := [
    Line(0, 1, 2), Line(3, 4, 5), Line(6, 7, 8),
    Line(0, 3, 6), Line(1, 4, 7), Line(2, 5, 8),
    Line(0, 4, 8), Line(2, 4, 6)
  ]

  /** The bot's fallback order: centre, corners, edges. */
  const Priority: seq<nat> := [4, 0, 2, 6, 8, 1, 3, 5, 7]

  function Other(m: Mark): Mark {
    if m == X then O else X
  }

  predicate OnBoard(l: Line) {
    l.a < 9 && l.b < 9 && l.c < 9
  }

  lemma CombosOnBoard()
    ensures forall k :: 0 <= k < |Combos| ==> OnBoard(Combos[k])
  {
  }

  /** Three equal, non-empty marks on line l. */
  predicate Holds(b: Board, l: Line)
    requires |b| == 9 && OnBoard(l)
  {
    b[l.a].Some? && b[l.a] == b[l.b] && b[l.b] == b[l.c]
  }

  predicate Full(b: Board)
    requires |b| == 9
  {
    forall i :: 0 <= i < 9 ==> b[i].Some?
  }

  /** The scan of calculateWinner, from combo k onwards. */
  function WinnerFrom(b: Board, k: nat): (r: Option<Win>)
    requires |b| == 9 && k <= |Combos|
    ensures r.Some? <==> exists j :: k <= j < |Combos| && Holds(b, Combos[j])
    ensures r.Some? ==> exists j :: k <= j < |Combos| && Holds(b, Combos[j])
                                    && r.value.line == Combos[j]
                                    && Some(r.value.winner) == b[Combos[j].a]
                                    && forall i :: k <= i < j ==> !Holds(b, Combos[i])
    decreases |Combos| - k
  {
    CombosOnBoard();
    if k == |Combos| then None
    else
      var l := Combos[k];
      if b[l.a].Some? && b[l.a] == b[l.b] && b[l.b] == b[l.c] then
        assert Holds(b, Combos[k]);
        Some(Win(b[l.a].value, l))
      else
        assert !Holds(b, Combos[k]);
        WinnerFrom(b, k + 1)
  }

  /** calculateWinner: a mark is returned iff some combo holds three equal
      marks, and the line returned is the first such combo in list order. */
  function CalculateWinner(b: Board): (r: Option<Win>)
    requires |b| == 9
    ensures r.Some? <==> exists j :: 0 <= j < |Combos| && Holds(b, Combos[j])
    ensures r.Some? ==> exists j :: 0 <= j < |Combos| && Holds(b, Combos[j])
                                    && r.value.line == Combos[j]
                                    && Some(r.value.winner) == b[Combos[j].a]
                                    && forall i :: 0 <= i < j ==> !Holds(b, Combos[i])
  {
    WinnerFrom(b, 0)
  }

  function Count(b: Board, l: Line, s: Mark): nat
    requires |b| == 9 && OnBoard(l)
  {
    (if b[l.a] == Some(s) then 1 else 0) + (if b[l.b] == Some(s) then 1 else 0)
    + (if b[l.c] == Some(s) then 1 else 0)
  }

  /** `[a, b, c].find(i => !board[i])` */
  function FirstEmpty(b: Board, l: Line): (r: Option<nat>)
    requires |b| == 9 && OnBoard(l)
  {
    if b[l.a].None? then Some(l.a) else if b[l.b].None? then Some(l.b)
    else if b[l.c].None? then Some(l.c) else None
  }

  /** m is the empty cell of line l and the line's other two cells hold s. */
  predicate Completes(b: Board, l: Line, s: Mark, m: nat)
    requires |b| == 9 && OnBoard(l)
  {
    || (m == l.a && b[l.a].None? && b[l.b] == Some(s) && b[l.c] == Some(s))
    || (m == l.b && b[l.b].None? && b[l.a] == Some(s) && b[l.c] == Some(s))
    || (m == l.c && b[l.c].None? && b[l.a] == Some(s) && b[l.b] == Some(s))
  }

  /** Some completing move for s exists on line l. */
  predicate Threat(b: Board, l: Line, s: Mark)
    requires |b| == 9 && OnBoard(l)
  {
    Count(b, l, s) == 2 && FirstEmpty(b, l).Some?
  }

  lemma ThreatCompletes(b: Board, l: Line, s: Mark)
    requires |b| == 9 && OnBoard(l)
    ensures Threat(b, l, s) <==> (exists m :: 0 <= m < 9 && Completes(b, l, s, m))
    ensures Threat(b, l, s) ==> Completes(b, l, s, FirstEmpty(b, l).value)
  {
    if exists m :: 0 <= m < 9 && Completes(b, l, s, m) {
      var m :| 0 <= m < 9 && Completes(b, l, s, m);
      assert FirstEmpty(b, l) == Some(m);
    }
    if Threat(b, l, s) {
      if b[l.a].None? {
        assert Completes(b, l, s, l.a);
      } else if b[l.b].None? {
        assert Completes(b, l, s, l.b);
      } else {
        assert Completes(b, l, s, l.c);
      }
    }
  }

  /** m is the cell findWinningMove picks for s: the first empty cell of the
      first line, in combo order, that s threatens. */
  ghost predicate FirstThreatMove(b: Board, s: Mark, m: nat, k: nat)
    requires |b| == 9
  {
    CombosOnBoard();
    exists j :: k <= j < |Combos| && Threat(b, Combos[j], s) && FirstEmpty(b, Combos[j]) == Some(m)
                && Completes(b, Combos[j], s, m)
                && forall i :: k <= i < j ==> !Threat(b, Combos[i], s)
  }

  /** The scan of findWinningMove, from combo k onwards. */
  function FindWinningMoveFrom(b: Board, s: Mark, k: nat): (r: Option<nat>)
    requires |b| == 9 && k <= |Combos|
    ensures r.None? <==> forall j :: k <= j < |Combos| ==> !Threat(b, Combos[j], s)
    ensures r.Some? ==> r.value < 9 && FirstThreatMove(b, s, r.value, k)
    decreases |Combos| - k
  {
    CombosOnBoard();
    if k == |Combos| then None
    else
      var l := Combos[k];
      var e := FirstEmpty(b, l);
      if Count(b, l, s) == 2 && e.Some? then
        ThreatHere(b, s, k);
        e
      else
        var r := FindWinningMoveFrom(b, s, k + 1);
        if r.Some? then ThreatLater(b, s, r.value, k); r
        else r
  }

  /** The scan stops at combo k when s threatens it. */
  lemma ThreatHere(b: Board, s: Mark, k: nat)
    requires |b| == 9 && k < |Combos|
    requires OnBoard(Combos[k]) && Threat(b, Combos[k], s)
    ensures FirstEmpty(b, Combos[k]).value < 9 && FirstThreatMove(b, s, FirstEmpty(b, Combos[k]).value, k)
  {
    ThreatCompletes(b, Combos[k], s);
  }

  /** The scan passes over combo k when s does not threaten it. */
  lemma ThreatLater(b: Board, s: Mark, m: nat, k: nat)
    requires |b| == 9 && k < |Combos|
    requires OnBoard(Combos[k]) && !Threat(b, Combos[k], s) && FirstThreatMove(b, s, m, k + 1)
    ensures FirstThreatMove(b, s, m, k)
  {
    CombosOnBoard();
    var j :| k + 1 <= j < |Combos| && Threat(b, Combos[j], s) && FirstEmpty(b, Combos[j]) == Some(m)
             && Completes(b, Combos[j], s, m) && forall i :: k + 1 <= i < j ==> !Threat(b, Combos[i], s);
    assert forall i :: k <= i < j ==> !Threat(b, Combos[i], s);
  }

  /** findWinningMove: null exactly when no line holds two s marks and an
      empty cell; otherwise the first empty cell of the first such line in
      combo order, which is empty and completes that line for s. */
  function FindWinningMove(b: Board, s: Mark): (r: Option<nat>)
    requires |b| == 9
    ensures r.None? <==> forall j :: 0 <= j < |Combos| ==> !Threat(b, Combos[j], s)
    ensures r.Some? ==> r.value < 9 && b[r.value].None? && FirstThreatMove(b, s, r.value, 0)
  {
    var r := FindWinningMoveFrom(b, s, 0);
    if r.Some? then ThreatMoveEmpty(b, s, r.value, 0); r
    else r
  }

  /** The cell a threat is completed on is an empty board cell. */
  lemma ThreatMoveEmpty(b: Board, s: Mark, m: nat, k: nat)
    requires |b| == 9 && FirstThreatMove(b, s, m, k)
    ensures m < 9 && b[m].None?
  {
    CombosOnBoard();
    var j :| k <= j < |Combos| && Completes(b, Combos[j], s, m);
  }

  /** Some line of b can be completed by s. */
  ghost predicate CanComplete(b: Board, s: Mark)
    requires |b| == 9
  {
    CombosOnBoard();
    exists j, m :: 0 <= j < |Combos| && 0 <= m < 9 && Completes(b, Combos[j], s, m)
  }

  lemma FindWinningMoveComplete(b: Board, s: Mark)
    requires |b| == 9
    ensures FindWinningMove(b, s).Some? <==> CanComplete(b, s)
  {
    CombosOnBoard();
    if CanComplete(b, s) {
      var j, m :| 0 <= j < |Combos| && 0 <= m < 9 && Completes(b, Combos[j], s, m);
      ThreatCompletes(b, Combos[j], s);
    }
  }

  /** `priority.find(i => !board[i])`, from position k of the priority list. */
  function FirstFreeFrom(b: Board, k: nat): (r: Option<nat>)
    requires |b| == 9 && k <= |Priority|
    ensures r.None? <==> forall q :: k <= q < |Priority| ==> b[Priority[q]].Some?
    ensures r.Some? ==> exists p :: k <= p < |Priority| && r.value == Priority[p] && b[Priority[p]].None?
                                    && forall q :: k <= q < p ==> b[Priority[q]].Some?
    decreases |Priority| - k
  {
    if k == |Priority| then None
    else if b[Priority[k]].None? then Some(Priority[k])
    else FirstFreeFrom(b, k + 1)
  }

  lemma PriorityCoversBoard()
    ensures forall i :: 0 <= i < 9 ==> i in Priority
  {
    assert Priority[1] == 0 && Priority[5] == 1 && Priority[2] == 2 && Priority[6] == 3;
    assert Priority[0] == 4 && Priority[7] == 5 && Priority[3] == 6 && Priority[8] == 7;
    assert Priority[4] == 8;
  }

  /** `priority.find` comes back empty exactly on a full board. */
  lemma FirstFreeFull(b: Board)
    requires |b| == 9
    ensures FirstFreeFrom(b, 0).None? <==> Full(b)
  {
    PriorityCoversBoard();
    if FirstFreeFrom(b, 0).None? {
      forall i | 0 <= i < 9 ensures b[i].Some? {
        var q :| 0 <= q < |Priority| && Priority[q] == i;
      }
    }
  }

  /** getBestMove: a winning move for the bot if there is one, else a move
      blocking the player, else the first empty cell in priority order; None
      exactly when the board is full. Each of the first two is the first
      empty cell of the first line, in combo order, that the mark threatens. */
  function GetBestMove(b: Board, bot: Mark, player: Mark): (r: Option<nat>)
    requires |b| == 9
    ensures r.None? <==> Full(b)
    ensures r.Some? ==> r.value < 9 && b[r.value].None?
    ensures CanComplete(b, bot) ==> r.Some? && FirstThreatMove(b, bot, r.value, 0)
    ensures !CanComplete(b, bot) && CanComplete(b, player) ==>
              r.Some? && FirstThreatMove(b, player, r.value, 0)
    ensures !CanComplete(b, bot) && !CanComplete(b, player) && r.Some? ==>
              exists p :: 0 <= p < |Priority| && r.value == Priority[p]
                          && forall q :: 0 <= q < p ==> b[Priority[q]].Some?
  {
    var win := FindWinningMove(b, bot);
    FindWinningMoveComplete(b, bot);
    if win.Some? then win
    else
      var block := FindWinningMove(b, player);
      FindWinningMoveComplete(b, player);
      if block.Some? then block
      else
        FirstFreeFull(b);
        FirstFreeFrom(b, 0)
  }

  /** Writing s into the completing cell of a line makes the line hold. */
  lemma CompletesHolds(b: Board, l: Line, s: Mark, m: nat)
    requires |b| == 9 && OnBoard(l) && m < 9 && Completes(b, l, s, m)
    ensures Holds(b[m := Some(s)], l)
  {
  }

  /** Placing s on the cell findWinningMove returns gives calculateWinner a
      winner; if the board had no winner before, that winner is s. */
  lemma WinningMoveWins(b: Board, s: Mark)
    requires |b| == 9 && FindWinningMove(b, s).Some?
    ensures CalculateWinner(b[FindWinningMove(b, s).value := Some(s)]).Some?
    ensures CalculateWinner(b).None? ==>
              CalculateWinner(b[FindWinningMove(b, s).value := Some(s)]).value.winner == s
  {
    CombosOnBoard();
    var m := FindWinningMove(b, s).value;
    var b' := b[m := Some(s)];
    var j :| 0 <= j < |Combos| && Completes(b, Combos[j], s, m);
    CompletesHolds(b, Combos[j], s, m);
    if CalculateWinner(b).None? {
      var w := CalculateWinner(b').value;
      var i :| 0 <= i < |Combos| && Holds(b', Combos[i]) && w.line == Combos[i]
               && Some(w.winner) == b'[Combos[i].a];
      assert !Holds(b, Combos[i]);
      var l := Combos[i];
      assert m == l.a || m == l.b || m == l.c;
    }
  }

  /** The status line: a winner if calculateWinner finds one, a draw when all
      nine cells are occupied without a winner, otherwise whose turn it is. */
  function StatusOf(b: Board, xIsNext: bool): (r: Status)
    requires |b| == 9
    ensures r.Draw? <==> Full(b) && forall j :: 0 <= j < |Combos| ==> !Holds(b, Combos[j])
    ensures r.Winner? <==> exists j :: 0 <= j < |Combos| && Holds(b, Combos[j])
    ensures r.Winner? ==> exists j :: 0 <= j < |Combos| && Holds(b, Combos[j]) && b[Combos[j].a] == Some(r.mark)
    ensures r.Turn? ==> r.next == (if xIsNext then X else O) && !Full(b)
  {
    var w := CalculateWinner(b);
    if w.Some? then Winner(w.value.winner)
    else if forall i :: 0 <= i < 9 ==> b[i].Some? then Draw
    else Turn(if xIsNext then X else O)
  }

  /** Number of cells of b holding m. */
  function Marks(b: seq<Option<Mark>>, m: Mark): nat {
    if b == [] then 0 else (if b[0] == Some(m) then 1 else 0) + Marks(b[1..], m)
  }

  /** Writing m into an empty cell adds one m and leaves the other count alone. */
  lemma {:induction false} MarksAfterPlace(b: seq<Option<Mark>>, i: nat, m: Mark)
    requires i < |b| && b[i].None?
    ensures Marks(b[i := Some(m)], m) == Marks(b, m) + 1
    ensures Marks(b[i := Some(m)], Other(m)) == Marks(b, Other(m))
  {
    if i > 0 {
      MarksAfterPlace(b[1..], i - 1, m);
      assert b[i := Some(m)][1..] == b[1..][i - 1 := Some(m)];
    }
  }

  /** A row of n empty cells (`Array(9).fill(null)`). */
  function Empty(n: nat): (r: seq<Option<Mark>>)
    ensures |r| == n && forall i :: 0 <= i < n ==> r[i].None?
  {
    seq(n, _ => None)
  }

  lemma {:induction false} MarksEmpty(n: nat, m: Mark)
    ensures Marks(Empty(n), m) == 0
  {
    if n > 0 {
      assert Empty(n)[1..] == Empty(n - 1);
      MarksEmpty(n - 1, m);
    }
  }

  /** The turn flag agrees with the marks on the board: X moves when both
      marks are equally many, O when X has one more. */
  ghost predicate Alternating(b: Board, xIsNext: bool) {
    Marks(b, X) == Marks(b, O) + (if xIsNext then 0 else 1)
  }

  class Game {
    var squares: Board
    var xIsNext: bool
    var mode: Mode

    ghost predicate Valid()
      reads this
    {
      |squares| == 9 && Alternating(squares, xIsNext)
    }

    /** The mark the next click writes. */
    function Current(): Mark
      reads this
    {
      if xIsNext then X else O
    }

    /** The effect at lines 20-29 schedules the bot exactly in this state. */
    predicate BotToMove()
      reads this
      requires |squares| == 9
    {
      mode == Bot && !xIsNext && CalculateWinner(squares).None?
    }

    constructor ()
      ensures Valid() && mode == Pvp && xIsNext
      ensures squares == Empty(9)
    {
      squares, xIsNext, mode := Empty(9), true, Pvp;
      new;
      MarksEmpty(9, X);
      MarksEmpty(9, O);
    }

    /** handleClick(i): ignored on an occupied cell, after a win, or on the
        bot's turn; otherwise writes the current mark into cell i only and
        passes the turn. */
    method HandleClick(i: nat)
      requires Valid() && i < 9
      modifies this
      ensures Valid() && mode == old(mode)
      ensures old(squares[i].Some? || CalculateWinner(squares).Some? || (mode == Bot && !xIsNext)) ==>
                squares == old(squares) && xIsNext == old(xIsNext)
      ensures !old(squares[i].Some? || CalculateWinner(squares).Some? || (mode == Bot && !xIsNext)) ==>
                squares == old(squares)[i := Some(old(Current()))] && xIsNext == !old(xIsNext)
    {
      if squares[i].Some? || CalculateWinner(squares).Some? || (mode == Bot && !xIsNext) {
        return;
      }
      var mark := if xIsNext then X else O;
      MarksAfterPlace(squares, i, mark);
      squares := squares[i := Some(mark)];
      xIsNext := !xIsNext;
    }

    /** handleRestart: an empty board with X to move. */
    method HandleRestart()
      modifies this
      ensures Valid() && mode == old(mode) && xIsNext
      ensures squares == Empty(9)
    {
      squares := Empty(9);
      xIsNext := true;
      MarksEmpty(9, X);
      MarksEmpty(9, O);
    }

    /** The mode selector: switch mode and restart. */
    method SetMode(m: Mode)
      modifies this
      ensures Valid() && mode == m && xIsNext
      ensures squares == Empty(9)
    {
      mode := m;
      HandleRestart();
    }

    /** makeSmartBotMove, run by the timer the effect schedules on the bot's
        turn: O goes on getBestMove's cell and X moves next; on a full board
        nothing changes. */
    method MakeSmartBotMove()
      requires Valid() && BotToMove()
      modifies this
      ensures Valid() && mode == old(mode)
      ensures Full(old(squares)) ==> squares == old(squares) && xIsNext == old(xIsNext)
      ensures !Full(old(squares)) ==>
                var m := GetBestMove(old(squares), O, X).value;
                m < 9 && old(squares)[m].None? && squares == old(squares)[m := Some(O)] && xIsNext
    {
      var move := GetBestMove(squares, O, X);
      if move.None? {
        return;
      }
      MarksAfterPlace(squares, move.value, O);
      squares := squares[move.value := Some(O)];
      xIsNext := true;
    }
  }
}
