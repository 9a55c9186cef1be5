/** Snake on a 20x20 board: the head step, wall and self collision,
    grow-or-pop and the perpendicular-only direction rule. SnakeGame models
    src/components/SnakeGames.jsx (with a start flag and a high score);
    ClassicSnake models the older src/components/Snake.jsx. */
module Snake {

  const BOARD_SIZE: int := 20

  datatype Pos = Pos(x: int, y: int)

  datatype Key = ArrowUp | ArrowDown | ArrowLeft | ArrowRight | OtherKey

  const INITIAL_SNAKE: seq<Pos> := [Pos(9, 9)]
  const INITIAL_DIRECTION: Pos := Pos(1, 0)

  predicate InBounds(p: Pos) {
    0 <= p.x < BOARD_SIZE && 0 <= p.y < BOARD_SIZE
  }

  /** One of the four headings. */
  predicate IsUnit(d: Pos) {
    d == Pos(1, 0) || d == Pos(-1, 0) || d == Pos(0, 1) || d == Pos(0, -1)
  }

  function Abs(n: int): nat {
    if n < 0 then -n else n
  }

  /** p and q share an edge. */
  predicate Adjacent(p: Pos, q: Pos) {
    Abs(p.x - q.x) + Abs(p.y - q.y) == 1
  }

  function Add(p: Pos, d: Pos): Pos {
    Pos(p.x + d.x, p.y + d.y)
  }

  /** The direction handler: an arrow is taken only if it is perpendicular to
      the current heading; every other key, and every arrow along the current
      axis, leaves the heading as it is. A heading therefore never turns
      into its own reverse and stays a unit vector. */
  function Turn(d: Pos, k: Key): (r: Pos)
    ensures IsUnit(d) ==> IsUnit(r)
    ensures r != Pos(-d.x, -d.y) || d == Pos(0, 0)
    ensures r == d || r.x * d.x + r.y * d.y == 0
    ensures k == OtherKey ==> r == d
    ensures (k == ArrowLeft || k == ArrowRight) && d.x != 0 ==> r == d
    ensures (k == ArrowUp || k == ArrowDown) && d.y != 0 ==> r == d
  {
    if k == ArrowUp && d.y == 0 then Pos(0, -1)
    else if k == ArrowDown && d.y == 0 then Pos(0, 1)
    else if k == ArrowLeft && d.x == 0 then Pos(-1, 0)
    else if k == ArrowRight && d.x == 0 then Pos(1, 0)
    else d
  }

  /** Every arrow perpendicular to the heading is accepted. */
  lemma TurnAcceptsPerpendicular(d: Pos)
    requires IsUnit(d)
    ensures d.y == 0 ==> Turn(d, ArrowUp) == Pos(0, -1) && Turn(d, ArrowDown) == Pos(0, 1)
    ensures d.x == 0 ==> Turn(d, ArrowLeft) == Pos(-1, 0) && Turn(d, ArrowRight) == Pos(1, 0)
  {
  }

  /** The rule compares each key with the heading as last set, not with the
      heading of the last step: two keys between ticks can reverse it. */
  lemma TwoKeysReverse()
    ensures Turn(Turn(Pos(1, 0), ArrowUp), ArrowLeft) == Pos(-1, 0)
  {
  }

  /** The step is fatal when the new head leaves the board or lands on any
      current segment, the tail included. */
  predicate Fatal(snake: seq<Pos>, head: Pos) {
    !InBounds(head) || head in snake
  }

  predicate Distinct(s: seq<Pos>) {
    forall i, j :: 0 <= i < j < |s| ==> s[i] != s[j]
  }

  /** A snake body: on the board, no segment twice, each segment next to the
      one before it. */
  predicate WellFormed(s: seq<Pos>) {
    && |s| >= 1
    && (forall i :: 0 <= i < |s| ==> InBounds(s[i]))
    && Distinct(s)
    && (forall i :: 0 <= i < |s| - 1 ==> Adjacent(s[i], s[i + 1]))
  }

  /** `[newHead, ...snake]`, with the tail popped unless the head is on the food. */
  function NextBody(snake: seq<Pos>, head: Pos, food: Pos): seq<Pos>
    requires |snake| >= 1
  {
    if head == food then [head] + snake else [head] + snake[..|snake| - 1]
  }

  /** A step that is not fatal keeps the body well formed, puts the new head
      next to the old one, and grows the body by one exactly when the head
      reaches the food. */
  lemma StepKeepsWellFormed(snake: seq<Pos>, d: Pos, food: Pos)
    requires WellFormed(snake) && IsUnit(d) && !Fatal(snake, Add(snake[0], d))
    ensures var next := NextBody(snake, Add(snake[0], d), food);
            && WellFormed(next)
            && next[0] == Add(snake[0], d) && Adjacent(next[0], snake[0])
            && |next| == |snake| + (if Add(snake[0], d) == food then 1 else 0)
  {
    var h := Add(snake[0], d);
    var next := NextBody(snake, h, food);
    var rest := if h == food then snake else snake[..|snake| - 1];
    assert next == [h] + rest;
    assert forall i :: 0 <= i < |rest| ==> rest[i] == snake[i];
    forall i, j | 0 <= i < j < |next| ensures next[i] != next[j] {
      if i == 0 {
        assert next[j] == snake[j - 1];
      } else {
        assert next[i] == snake[i - 1] && next[j] == snake[j - 1];
      }
    }
    forall i | 0 <= i < |next| - 1 ensures Adjacent(next[i], next[i + 1]) {
      if i > 0 {
        assert next[i] == snake[i - 1] && next[i + 1] == snake[i];
      }
    }
  }

  /** The game of src/components/SnakeGames.jsx. */
  class SnakeGame {
    var snake: seq<Pos>
    var food: Pos
    var direction: Pos
    var gameOver: bool
    var score: nat
    var scoreHistory: seq<nat>
    var highscore: int
    var showCongrats: bool
    var started: bool

    ghost predicate Valid()
      reads this
    {
      WellFormed(snake) && IsUnit(direction) && InBounds(food) && |snake| == score + 1
    }

    /** The initial state; food and the stored high score are parameters. */
    constructor (firstFood: Pos, storedHigh: int)
      requires InBounds(firstFood)
      ensures Valid() && snake == INITIAL_SNAKE && direction == INITIAL_DIRECTION && food == firstFood
      ensures !gameOver && score == 0 && scoreHistory == [] && highscore == storedHigh
      ensures !showCongrats && !started
    {
      snake := INITIAL_SNAKE;
      food := firstFood;
      direction := INITIAL_DIRECTION;
      gameOver := false;
      score := 0;
      scoreHistory := [];
      highscore := storedHigh;
      showCongrats := false;
      started := false;
    }

    /** The key handler: ignored before the start and after game over,
        otherwise the heading follows Turn. */
    method HandleKey(k: Key)
      requires Valid()
      modifies this
      ensures Valid()
      ensures direction == if old(started) && !old(gameOver) then Turn(old(direction), k) else old(direction)
      ensures snake == old(snake) && food == old(food) && gameOver == old(gameOver) && score == old(score)
      ensures scoreHistory == old(scoreHistory) && highscore == old(highscore)
      ensures showCongrats == old(showCongrats) && started == old(started)
    {
      if !started || gameOver {
        return;
      }
      direction := Turn(direction, k);
    }

    /** One interval tick (moveSnake); the interval runs only while started
        and not over. A fatal step ends the round, records the score and
        replaces the high score only when the score beats it; the body is
        left as it was. Otherwise the head advances and the snake grows by
        one, with one more point and fresh food, exactly when the head is on
        the food. nextFood is the random cell generateFood would draw; it may
        lie on the body. */
    method Tick(nextFood: Pos)
      requires Valid() && InBounds(nextFood)
      modifies this
      ensures Valid() && direction == old(direction) && started == old(started)
      ensures highscore >= old(highscore)
      ensures !old(started) || old(gameOver) ==>
                snake == old(snake) && food == old(food) && gameOver == old(gameOver) && score == old(score)
                && scoreHistory == old(scoreHistory) && highscore == old(highscore)
                && showCongrats == old(showCongrats)
      ensures old(started) && !old(gameOver) && Fatal(old(snake), Add(old(snake)[0], old(direction))) ==>
                && gameOver && snake == old(snake) && food == old(food) && score == old(score)
                && scoreHistory == old(scoreHistory) + [old(score)]
                && highscore == (if old(score) > old(highscore) then old(score) else old(highscore))
                && showCongrats == (old(score) > old(highscore) || old(showCongrats))
      ensures old(started) && !old(gameOver) && !Fatal(old(snake), Add(old(snake)[0], old(direction))) ==>
                var head := Add(old(snake)[0], old(direction));
                && !gameOver && snake == NextBody(old(snake), head, old(food))
                && Adjacent(snake[0], old(snake)[0])
                && (head == old(food) ==> |snake| == |old(snake)| + 1 && score == old(score) + 1 && food == nextFood)
                && (head != old(food) ==> |snake| == |old(snake)| && score == old(score) && food == old(food))
                && scoreHistory == old(scoreHistory) && highscore == old(highscore)
                && showCongrats == old(showCongrats)
    {
      if !started || gameOver {
        return;
      }
      var newHead := Add(snake[0], direction);
      if !InBounds(newHead) || newHead in snake {
        gameOver := true;
        scoreHistory := scoreHistory + [score];
        if score > highscore {
          highscore := score;
          showCongrats := true;
        }
        return;
      }
      StepKeepsWellFormed(snake, direction, food);
      var newSnake := [newHead] + snake;
      if newHead == food {
        food := nextFood;
        score := score + 1;
      } else {
        newSnake := newSnake[..|newSnake| - 1];
      }
      snake := newSnake;
    }

    /** startGame (and resetGame, which only calls it): one segment at (9, 9)
        heading right, score 0, running; the history and the high score are
        kept. */
    method StartGame(nextFood: Pos)
      requires InBounds(nextFood)
      modifies this
      ensures Valid() && snake == INITIAL_SNAKE && direction == INITIAL_DIRECTION && food == nextFood
      ensures !gameOver && score == 0 && started && !showCongrats
      ensures scoreHistory == old(scoreHistory) && highscore == old(highscore)
    {
      snake := INITIAL_SNAKE;
      food := nextFood;
      direction := INITIAL_DIRECTION;
      gameOver := false;
      score := 0;
      showCongrats := false;
      started := true;
    }
  }

  /** The older game of src/components/Snake.jsx: no start flag, no high
      score, and a key handler that listens even after game over. */
  class ClassicSnake {
    var snake: seq<Pos>
    var food: Pos
    var direction: Pos
    var gameOver: bool
    var score: nat
    var scoreHistory: seq<nat>

    ghost predicate Valid()
      reads this
    {
      WellFormed(snake) && IsUnit(direction) && InBounds(food) && |snake| == score + 1
    }

    constructor (firstFood: Pos)
      requires InBounds(firstFood)
      ensures Valid() && snake == INITIAL_SNAKE && direction == INITIAL_DIRECTION && food == firstFood
      ensures !gameOver && score == 0 && scoreHistory == []
    {
      snake := INITIAL_SNAKE;
      food := firstFood;
      direction := INITIAL_DIRECTION;
      gameOver := false;
      score := 0;
      scoreHistory := [];
    }

    /** The key switch: the heading follows Turn, whatever the game state. */
    method HandleKey(k: Key)
      requires Valid()
      modifies this
      ensures Valid() && direction == Turn(old(direction), k)
      ensures snake == old(snake) && food == old(food) && gameOver == old(gameOver)
      ensures score == old(score) && scoreHistory == old(scoreHistory)
    {
      direction := Turn(direction, k);
    }

    /** One interval tick (moveSnake); no step happens once the game is over. */
    method Tick(nextFood: Pos)
      requires Valid() && InBounds(nextFood)
      modifies this
      ensures Valid() && direction == old(direction)
      ensures old(gameOver) ==>
                snake == old(snake) && food == old(food) && gameOver && score == old(score)
                && scoreHistory == old(scoreHistory)
      ensures !old(gameOver) && Fatal(old(snake), Add(old(snake)[0], old(direction))) ==>
                gameOver && snake == old(snake) && food == old(food) && score == old(score)
                && scoreHistory == old(scoreHistory) + [old(score)]
      ensures !old(gameOver) && !Fatal(old(snake), Add(old(snake)[0], old(direction))) ==>
                var head := Add(old(snake)[0], old(direction));
                && !gameOver && snake == NextBody(old(snake), head, old(food))
                && Adjacent(snake[0], old(snake)[0])
                && (head == old(food) ==> |snake| == |old(snake)| + 1 && score == old(score) + 1 && food == nextFood)
                && (head != old(food) ==> |snake| == |old(snake)| && score == old(score) && food == old(food))
                && scoreHistory == old(scoreHistory)
    {
      if gameOver {
        return;
      }
      var newHead := Add(snake[0], direction);
      if !InBounds(newHead) || newHead in snake {
        gameOver := true;
        scoreHistory := scoreHistory + [score];
        return;
      }
      StepKeepsWellFormed(snake, direction, food);
      var newSnake := [newHead] + snake;
      if newHead == food {
        food := nextFood;
        score := score + 1;
      } else {
        newSnake := newSnake[..|newSnake| - 1];
      }
      snake := newSnake;
    }

    /** resetGame: one segment at (9, 9) heading right, score 0, not over;
        the history is kept. */
    method ResetGame(nextFood: Pos)
      requires InBounds(nextFood)
      modifies this
      ensures Valid() && snake == INITIAL_SNAKE && direction == INITIAL_DIRECTION && food == nextFood
      ensures !gameOver && score == 0 && scoreHistory == old(scoreHistory)
    {
      snake := INITIAL_SNAKE;
      food := nextFood;
      direction := INITIAL_DIRECTION;
      gameOver := false;
      score := 0;
    }
  }
}
