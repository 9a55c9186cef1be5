# Six browser games as verified state machines

This project is a Dafny model of the game engines in the React components of
the finalReact repository:
- tic-tac-toe with a greedy bot;
- Block Blast, a 9×9 polyomino puzzle;
- Snake, in two variants;
- Flappy Bird;
- a memory (pairs) game;
- a word-guessing game, in two variants.

Each component keeps its state in React hooks and changes it from event
handlers, timers and effects. In the model:
- Each component is a Dafny `class` whose fields are that state.
- Each handler, interval tick, timeout callback and effect is a method.
- Each method has a contract that states the whole new state.
- The read-only scans are functions with characterising contracts:
  - the winner check, the bot's choices and the fit test;
  - pipe scrolling and the letter scoring.
- Random draws and stored high scores are parameters:
  - the food cell, the pipe gap, the hand of shapes and the shuffled deck;
  - the stored high scores from `localStorage`.
- Each `setTimeout`/`setInterval` callback is a method the caller invokes in
  order: `Tick`, `Settle`, `ResolveMismatch`, `MakeSmartBotMove`.

Every engine follows the code as written:
- Snake food may land on the body.
- Snake's self-collision test includes the tail cell.
- Block Blast clears rows and never columns.
- Block Blast's game-over test uses the hand and the score from before the
  placement.
- Word guessing accepts input after a win.
- A word-guess secret may hold characters that no guess can contain (a
  digit, or a letter outside A-Z, А-Я and Ё). Such a game starts but can
  never be won.
- The memory game keeps no best time.

The files:
- `wrappers.dfy`: `Option`.
- `cardinality.dfy`: set-size lemmas over injective maps.
- `tictactoe.dfy`, `blockblast.dfy`, `snake.dfy`, `flappy.dfy`, `memory.dfy`,
  `wordguess.dfy`: one module per game.

## Model

| member | source | states |
|---|---|---|
| TicTacToe.WinnerFrom | src/components/TicTacToe.jsx:120-125 | The scan from combo k returns a winner iff some remaining combo holds three equal marks. It returns the first such combo and the mark in its cells. |
| TicTacToe.CalculateWinner | src/components/TicTacToe.jsx:119-127 | The full check returns a winner iff one of the 8 lines holds three equal marks. The line it returns is the first in list order, and the winner is the mark in that line. |
| TicTacToe.ThreatCompletes | src/components/TicTacToe.jsx:141-145 | A line is a threat for s iff some cell completes it: the cell is empty and the line's other two cells hold s. The line's first empty cell is such a cell. |
| TicTacToe.FindWinningMoveFrom | src/components/TicTacToe.jsx:140-148 | The scan returns nothing iff no remaining line is a threat. Otherwise it returns the first empty cell of the first remaining threatened line, and that cell completes the line. |
| TicTacToe.ThreatHere | src/components/TicTacToe.jsx:143-145 | The scan stops at a threatened combo, on its first empty cell. |
| TicTacToe.ThreatLater | src/components/TicTacToe.jsx:141-146 | Passing over a combo that is not threatened keeps the scan's result the first threatened line's cell. |
| TicTacToe.ThreatMoveEmpty | src/components/TicTacToe.jsx:144 | The cell picked for a threat is an empty board cell. |
| TicTacToe.FindWinningMove | src/components/TicTacToe.jsx:140-148 | findWinningMove returns null iff no line has two s-marks and a gap. Otherwise it returns the first empty cell of the first such line in combo order. That cell is empty and completes the line for s. |
| TicTacToe.FindWinningMoveComplete | src/components/TicTacToe.jsx:140-148 | findWinningMove finds a cell exactly when s can complete some line. |
| TicTacToe.WinningMoveWins | src/components/TicTacToe.jsx:140-148 | Placing s on the returned cell makes calculateWinner non-null. If there was no winner before, the winner is s. |
| TicTacToe.FirstFreeFrom | src/components/TicTacToe.jsx:136-137 | `priority.find` from position k returns the first empty cell in preference order, or nothing iff every remaining preferred cell is taken. |
| TicTacToe.PriorityCoversBoard | src/components/TicTacToe.jsx:136 | The preference list names every one of the nine cells. |
| TicTacToe.GetBestMove | src/components/TicTacToe.jsx:129-138 | getBestMove returns null iff the board is full, and otherwise an empty cell. If the bot can win, the cell is on the first line in combo order that the bot threatens. Otherwise, if the player threatens, it is on the first line the player threatens. Otherwise it is the first free cell in [4,0,2,6,8,1,3,5,7]. |
| TicTacToe.FirstFreeFull | src/components/TicTacToe.jsx:136-137 | `priority.find` finds no cell exactly when the board is full. |
| TicTacToe.CompletesHolds | src/components/TicTacToe.jsx:142-145 | Writing s into the cell that completes a line makes that line hold three s-marks. |
| TicTacToe.StatusOf | src/components/TicTacToe.jsx:98-106 | The status line: a winner iff some line holds, and the winner shown is the mark on a line that holds; a draw iff all nine cells are filled and no line holds; otherwise the mark to move, on a board that is not full. |
| TicTacToe.MarksAfterPlace | src/components/TicTacToe.jsx:33-35 | Writing m into an empty cell adds one m-mark and leaves the other mark's count unchanged. |
| TicTacToe.MarksEmpty | src/components/TicTacToe.jsx:15 | An empty board holds no marks. |
| TicTacToe.Game.constructor | src/components/TicTacToe.jsx:15-18 | The game starts with an empty board, X to move, player-vs-player mode, and alternating mark counts. |
| TicTacToe.Game.HandleClick | src/components/TicTacToe.jsx:31-37 | handleClick is a no-op if the cell is taken, a winner exists, or it is the bot's turn. Otherwise it writes the current mark into exactly cell i and flips the turn. Mark counts keep alternating. |
| TicTacToe.Game.MakeSmartBotMove | src/components/TicTacToe.jsx:20-29 | The bot moves only in bot mode, on O's turn, with no winner. On a full board nothing changes. Otherwise it writes O into getBestMove's empty cell and gives the turn to X. |
| TicTacToe.Game.HandleRestart | src/components/TicTacToe.jsx:39-43 | Restart gives an empty board with X to move and keeps the mode. |
| TicTacToe.Game.SetMode | src/components/TicTacToe.jsx:64-67 | Choosing a mode sets it and restarts the board. |
| BlockBlast.Rotate | src/components/BlockBlast.jsx:15 | rotate maps an r×c matrix to a c×r matrix with result[i][j] = m[r-1-j][i]. |
| BlockBlast.RotateTwice | src/components/BlockBlast.jsx:15 | Two rotations turn the shape upside down: h[i][j] = m[r-1-i][c-1-j]. |
| BlockBlast.RotateFourTimes | src/components/BlockBlast.jsx:15 | Four rotations give back the original shape. |
| BlockBlast.RotateKeepsFilledCount | src/components/BlockBlast.jsx:15 | Rotation keeps the number of filled cells. |
| BlockBlast.CanPlaceFrom | src/components/BlockBlast.jsx:34-39 | The early-return scan from cell (i, j) on is true iff every remaining filled cell, offset by (x, y), is on the board and empty. |
| BlockBlast.CanPlace | src/components/BlockBlast.jsx:33-41 | canPlace is true iff every filled cell of the shape, offset by (x, y), is inside the 9×9 grid and empty. Negative offsets are included in the test. |
| BlockBlast.StampCells | src/components/BlockBlast.jsx:45-48 | The copied board with the shape's filled cells written in: a cell is filled iff it was filled or lies under the shape. |
| BlockBlast.ClearFullRows | src/components/BlockBlast.jsx:49-50 | The row loop empties exactly the full rows and counts them. |
| BlockBlast.PlaceCell | src/components/BlockBlast.jsx:45-50 | After placing, a cell is filled iff it was filled or is under the shape, and its row did not become full. Full columns are never cleared. |
| BlockBlast.PlaceFrame | src/components/BlockBlast.jsx:46-50 | Cells outside the shape's footprint and outside cleared rows keep their values. |
| BlockBlast.ClearedRows | src/components/BlockBlast.jsx:50 | After clearing, no row is full, and every row that was full is empty. |
| BlockBlast.StampOnlyEmptyCells | src/components/BlockBlast.jsx:33-48 | When canPlace holds, the shape lands only on empty cells. |
| BlockBlast.RandomPieces | src/components/BlockBlast.jsx:17-19 | The hand holds exactly three shapes taken from SHAPES by the drawn indices. |
| BlockBlast.FreshHand | src/components/BlockBlast.jsx:17-19 | A freshly drawn hand is three unrotated shapes from SHAPES. |
| BlockBlast.EmptyGridHasNoFullRow | src/components/BlockBlast.jsx:4-5 | The empty board has no full row. |
| BlockBlast.AnyPieceFits | src/components/BlockBlast.jsx:58-63 | The nested scan is true iff some piece of the hand fits at some (x, y) in [0,9)². |
| BlockBlast.Game.constructor | src/components/BlockBlast.jsx:22-27 | The game starts with an empty board, a drawn hand, nothing selected, score 0, not over, and the stored history. |
| BlockBlast.Game.Select | src/components/BlockBlast.jsx:116 | Clicking a piece selects it and changes nothing else. |
| BlockBlast.Game.RotateSelected | src/components/BlockBlast.jsx:88-91 | rotateSelected does nothing when no piece is selected. Otherwise it rotates only the selected hand entry. |
| BlockBlast.Game.Place | src/components/BlockBlast.jsx:43-56 | place changes nothing when canPlace fails. Otherwise every row that became full is emptied and the score grows by exactly their number. The hand is replaced whole and the selection cleared. The board never holds a full row. |
| BlockBlast.Game.CommitPlacement | src/components/BlockBlast.jsx:58-68 | checkOver sets `over` iff no piece of the pre-redraw hand fits anywhere on the new board. When it does, it appends the score from before this placement to the history. |
| BlockBlast.Game.Restart | src/components/BlockBlast.jsx:80-86 | restart gives an empty board, a new hand, score 0, not over, and nothing selected. The history is kept. |
| Snake.Turn | src/components/SnakeGames.jsx:31-38 | An arrow along the current axis, and any other key, leave the heading unchanged. So the heading changes only to a perpendicular one. A unit heading stays a unit heading and never becomes its reverse. |
| Snake.TurnAcceptsPerpendicular | src/components/Snake.jsx:24-36 | Every perpendicular arrow is taken. |
| Snake.TwoKeysReverse | src/components/SnakeGames.jsx:28-42 | Two key presses between ticks (Up, then Left while heading right) leave the heading reversed relative to the last step. |
| Snake.StepKeepsWellFormed | src/components/SnakeGames.jsx:52-64 | A non-fatal step keeps all segments in bounds, pairwise distinct and adjacent. It puts the new head next to the old one and grows the body by one exactly when the head lands on the food. |
| Snake.SnakeGame.constructor | src/components/SnakeGames.jsx:15-25 | One segment at (9,9), heading right, score 0, not started, and the stored high score. |
| Snake.SnakeGame.HandleKey | src/components/SnakeGames.jsx:29-39 | Keys do nothing unless the game is started and not over. Otherwise the heading follows Turn. |
| Snake.SnakeGame.Tick | src/components/SnakeGames.jsx:45-84 | A tick does nothing unless the game is started and not over. A fatal step (off the board or onto any segment, the tail included) sets gameOver, appends the score to the history and leaves the body unchanged. The high score is replaced only when the score is strictly greater, so it never decreases. A step onto the food grows the length and the score by exactly 1; any other step keeps both. |
| Snake.SnakeGame.StartGame | src/components/SnakeGames.jsx:86-98 | startGame and resetGame restore a single segment at (9,9), heading (1,0), score 0, and gameOver false with started true. The history and the high score are kept. |
| Snake.ClassicSnake.constructor | src/components/Snake.jsx:8-13 | One segment at (9,9), heading right, score 0, empty history. |
| Snake.ClassicSnake.HandleKey | src/components/Snake.jsx:22-44 | The key switch accepts only perpendicular turns, in any game state. |
| Snake.ClassicSnake.Tick | src/components/Snake.jsx:46-84 | No step happens once gameOver is set. A fatal step sets gameOver, appends the score and keeps the body. Eating grows the length and the score by exactly 1; any other step keeps both. |
| Snake.ClassicSnake.ResetGame | src/components/Snake.jsx:86-92 | resetGame restores [(9,9)], heading (1,0), score 0 and gameOver false, and keeps the history. |
| Flappy.Advance | src/components/FlappyBird.jsx:60-64 | A pipe moves 5 to the left. Its passed flag is never cleared and is set exactly on the tick it crosses. |
| Flappy.ScrollMembers | src/components/FlappyBird.jsx:57-68 | After a tick the pipe list holds exactly the moved pipes with x + 60 > 0. |
| Flappy.ScrollKeepsPlaced | src/components/FlappyBird.jsx:57-68 | Scrolling keeps every pipe's gap in range, keeps every pipe on screen, and keeps passed true exactly when the pipe's right edge is left of the bird. |
| Flappy.ScrollKeepsSpaced | src/components/FlappyBird.jsx:57-68 | Scrolling keeps later pipes more than 400 to the right of earlier ones. |
| Flappy.ScrollKeeps | src/components/FlappyBird.jsx:57-68 | Scrolling keeps both pipe invariants. |
| Flappy.CrossingsAtMostOne | src/components/FlappyBird.jsx:61-64 | With the pipes as the game keeps them, at most one pipe scores per tick. |
| Flappy.LastOfSeveralDoesNotCross | src/components/FlappyBird.jsx:61 | When two or more pipes are on screen, the last one cannot be scoring. |
| Flappy.CreatePipe | src/components/FlappyBird.jsx:28-34 | A spawned pipe has x = 600, is not passed, and has its gap top y in [50, 349], so the gap [y, y+200] lies within [0, 600]. |
| Flappy.SpawnKeeps | src/components/FlappyBird.jsx:75-76 | Spawning when the list is empty or the last x is below 200 keeps both pipe invariants. |
| Flappy.AnyHit | src/components/FlappyBird.jsx:77-82 | `pipes.some` is true iff some pipe overlaps the bird horizontally (x < 70 and x + 60 > 50) while the bird lies outside its gap. |
| Flappy.FallClosedForm | src/components/FlappyBird.jsx:55-56 | Without a flap, after n ticks from height y at velocity v, the bird is at y + n·v + n(n−1)/2. |
| Flappy.Game.constructor | src/components/FlappyBird.jsx:14-23 | birdY 300, velocity 0, no pipes, score 0, not over, not started, and the stored best score. |
| Flappy.Game.Start | src/components/FlappyBird.jsx:101 | The start button sets started and changes nothing else. |
| Flappy.Game.Flap | src/components/FlappyBird.jsx:25-27 | flap sets the velocity to -12 only while started and not over; otherwise nothing changes. |
| Flappy.Game.Tick | src/components/FlappyBird.jsx:52-71 | A tick does nothing unless started and not over. It adds the pre-tick velocity to birdY, then adds 1 to the velocity. Each pipe moves left by exactly 5 and pipes with x + 60 <= 0 are dropped. The score grows by exactly the number of pipes that crossed, which is at most one. |
| Flappy.Game.Settle | src/components/FlappyBird.jsx:73-92 | While started and not over, the effect spawns a pipe when the list is empty or the last x is below 200. The round ends iff birdY < 0, birdY + 20 > 600, or a pipe from before the spawn hits the bird. The best score is replaced, with the banner, only when the score is strictly greater. |
| Flappy.Game.Restart | src/components/FlappyBird.jsx:36-44 | restart sets birdY to 300, velocity to 0, pipes to empty, score to 0, and over, started and the banner to false. The best score is kept. |
| Memory.PairedSymbols | src/components/MemoryGame.jsx:4-5 | The doubled symbol list holds each of the six symbols exactly twice. |
| Memory.GenerateCards | src/components/MemoryGame.jsx:3-14 | A fresh deck has 12 cards with ids equal to their positions and each symbol exactly twice. No card is flipped or matched, and the symbols are in the shuffled order. |
| Memory.FlagsKeepDeck | src/components/MemoryGame.jsx:41-43 | Changing only the flipped and matched flags keeps the deck a deck. |
| Memory.MemoryGame.constructor | src/components/MemoryGame.jsx:17-24 | A fresh deck, nothing selected, 0 moves, unlocked, not won, time 0, timer off, empty history, and the game is settled. |
| Memory.MemoryGame.FlipCard | src/components/MemoryGame.jsx:66-79 | flipCard is a no-op when locked, already selected, flipped or matched. Otherwise it starts the timer, flips exactly card i and appends i to selected. With two cards selected the pair effect follows. The settled invariant is kept, so selected holds at most 2 indices. |
| Memory.MemoryGame.TurnUp | src/components/MemoryGame.jsx:74-78 | An accepted flip turns card i face up, selects it and starts the timer. |
| Memory.MemoryGame.ResolvePair | src/components/MemoryGame.jsx:36-64 | With two cards selected, moves grows by exactly 1. A mismatch locks the board and queues its delayed resolution with the deck as it stands. |
| Memory.MemoryGame.MatchPair | src/components/MemoryGame.jsx:40-51 | A matching pair becomes matched, selected clears and the lock is released. won becomes true iff every card is matched; then the timer stops and the time is appended to the history. |
| Memory.MemoryGame.ResolveMismatch | src/components/MemoryGame.jsx:53-60 | The delayed callback restores the deck it captured with both cards face down, clears selected and unlocks. In a settled state only those two cards change. |
| Memory.MemoryGame.Tick | src/components/MemoryGame.jsx:26-34 | Time advances by one only while timerOn is set and the game is not won. |
| Memory.MemoryGame.ResetGame | src/components/MemoryGame.jsx:81-89 | resetGame deals a fresh deck and zeroes moves and time; won, timerOn and locked become false. The history is kept, and so is any pending mismatch callback. The result is settled only if none was pending. |
| Memory.MemoryGame.ResetGameCancelling | src/components/MemoryGame.jsx:81-89 | The reset with the pending callback cancelled always gives a settled fresh game. |
| Memory.UpAndDownAgain | src/components/MemoryGame.jsx:55-56 | Turning two face-down cards up and down again gives back the same deck. |
| Memory.StaleMismatchAfterReset | src/components/MemoryGame.jsx:53-61 | A reset within 800 ms of a mismatch is undone by the old callback. It puts the previous deck back in place of the newly dealt one. |
| WordGuess.DropLast | src/components/WordGuessGame.jsx:30 | `slice(0, -1)` drops the last character, and leaves an empty guess empty. |
| WordGuess.BackspaceUndoesTyping | src/components/WordGuessGame.jsx:28-30 | BACKSPACE right after a typed letter gives back the guess before it. Dropping the last character and putting it back restores the guess. |
| WordGuess.FindFree | src/components/WordGuessGame.jsx:51-53 | findIndex returns the first secret position with the letter that is not used, or -1 iff there is none. |
| WordGuess.GreenPass | src/components/WordGuessGame.jsx:45-48 | After the first loop, a position is green iff the letters align and nothing is yellow. The used secret positions are exactly the green ones. |
| WordGuess.Score | src/components/WordGuessGame.jsx:44-55 | Position i is green iff guess[i] equals secret[i]. A yellow takes the leftmost secret position with its letter that is neither green nor taken earlier. A grey non-green position leaves no such position free. The second result gives, for each yellow, the secret position it took. renderGuessRow in src/components/WordGuess.jsx (lines 32-53) performs the same two passes. |
| WordGuess.ConsumedFrame | src/components/WordGuessGame.jsx:49-54 | Whether a secret position is already used at guess position k depends only on the colours and links before k. |
| WordGuess.ConsumedNext | src/components/WordGuessGame.jsx:54 | Moving from guess position k to k + 1 uses up exactly the position that guess k took, if any. |
| WordGuess.StepTakes | src/components/WordGuessGame.jsx:50-54 | A yellow-pass step that finds a free position keeps the scoring invariant and marks that position used. |
| WordGuess.StepSkips | src/components/WordGuessGame.jsx:50-54 | A yellow-pass step that finds nothing, or skips a green, keeps the scoring invariant. |
| WordGuess.ConsumedAtMostOnce | src/components/WordGuessGame.jsx:45-55 | Each secret position is used at most once: yellows never take green positions, and no two yellows take the same one. |
| WordGuess.CreditedAtMostOccurrences | src/components/WordGuessGame.jsx:45-55 | For each letter, the green plus yellow count is at most its number of occurrences in the secret. |
| WordGuess.ScoreExample | src/components/WordGuessGame.jsx:45-55 | Secret "ABCA" with guess "AADD" scores green, yellow, grey, grey. |
| WordGuess.WordGuessGame.constructor | src/components/WordGuessGame.jsx:4-7 | An empty secret, guess and attempt list, not started. |
| WordGuess.WordGuessGame.SetSecret | src/components/WordGuessGame.jsx:83-91 | The secret input, shown only before the start, stores the upper-cased text as the secret. |
| WordGuess.WordGuessGame.Start | src/components/WordGuessGame.jsx:40-42 | start succeeds only if the secret is non-empty and contains no space. |
| WordGuess.WordGuessGame.HandleKey | src/components/WordGuessGame.jsx:24-38 | The handler does nothing unless the game has started and fewer than 6 attempts exist, so attempts never exceed 6. A letter A-Z/А-ЯЁ is appended only while the guess is shorter than the secret. BACKSPACE drops the last character. ENTER appends a full-length guess to attempts and clears the buffer. The guess never exceeds the secret's length, every attempt has the secret's length, and only IsLetter characters (A-Z, А-Я, Ё) enter a guess or an attempt. A win stays won while input goes on. Once the game is lost, keys change nothing. |
| WordGuess.WordGuessGame.Won | src/components/WordGuessGame.jsx:122 | The win banner shows iff the secret is among the attempts. It shows only in a started game whose secret consists of IsLetter characters alone. |
| WordGuess.WordGuessGame.Lost | src/components/WordGuessGame.jsx:127 | The loss banner shows iff there are 6 attempts and none is the secret. It never shows together with the win banner and only in a started game. Once six attempts exist, one of the two banners shows. |
| WordGuess.WordGuessGame.NonLetterSecretNeverWon | src/components/WordGuessGame.jsx:24-42 | start refuses only an empty secret or one containing a space, and guesses take only IsLetter characters. So a secret with any other character is never won, and is lost after six attempts. |
| WordGuess.WordGuessClassic.constructor | src/components/WordGuess.jsx:4-7 | An empty secret, guess and attempt list, not started. |
| WordGuess.WordGuessClassic.SetSecret | src/components/WordGuess.jsx:77-84 | The secret input, shown only before the start, stores the upper-cased text as the secret. |
| WordGuess.WordGuessClassic.StartGame | src/components/WordGuess.jsx:9-12 | startGame rejects an empty secret or one containing a space. |
| WordGuess.WordGuessClassic.HandleKeyPress | src/components/WordGuess.jsx:14-25 | Input is ignored unless the game has started and there are fewer than 6 attempts. A letter is appended only while the guess is shorter than the secret, Backspace removes the last character, and Enter submits only a full-length guess and clears the buffer. Guesses and attempts hold only IsLetter characters, a win stays won, and after a loss keys change nothing. |
| WordGuess.WordGuessClassic.Won | src/components/WordGuess.jsx:109 | Win iff the secret is in the attempts; only in a started game whose secret consists of IsLetter characters alone. |
| WordGuess.WordGuessClassic.Lost | src/components/WordGuess.jsx:114 | Loss iff there are 6 attempts and none is the secret. Never together with a win, and only in a started game. With six attempts, one of the two banners shows. |

## Left out

- Rendering, CSS, drag-and-drop plumbing and the window resize handler
  (`getCellSize`) are not modelled. They compute nothing the games depend on.
- Timers are not modelled as time. Each `setInterval`/`setTimeout` callback
  is a method, and the model assumes the callbacks run in the order they are
  due. The 400 ms bot delay, the 150 ms snake tick, the 20 ms flappy tick,
  the 800 ms memory delay and the 1 s memory timer are not represented.
- Clearing intervals on unmount is not modelled.
- React's batching of state updates is not modelled: each handler and
  effect is one atomic step.
- Interleavings of events between a render and its effect are not modelled
  (two clicks before the pair effect runs, for example).
- `Math.random` is replaced by parameters:
  - the snake's food cell, in bounds;
  - Flappy's gap draw in [0, 300);
  - Block Blast's three shape indices;
  - the memory deck order, any permutation of the doubled symbols.

  What distribution they follow is not modelled.
- `localStorage` reads and writes are replaced by constructor parameters and
  fields. JSON parsing of the stored history and the `Number(...) || 0`
  fallback are not modelled.
- The 3-second auto-clear of the "new record" banners in Snake and Flappy is
  not modelled.
- `toUpperCase` on the secret input and on key names is not modelled.
  Secrets and keys are given already upper-cased.
- Memory.MemoryGame: cards are values. The source flips and matches cards by
  mutating objects that its shallow array copies share. The model keeps only
  the effect of that sharing: a pending callback holds the deck as it was
  when the callback was scheduled.
- TicTacToe: `winnerInfo` is derived from the board instead of being stored.
  The source recomputes it in an effect before the next event.
- BlockBlast.Game.Place has no `over` guard, as in the source. In a browser
  the full-screen game-over overlay would catch drops first; the model does
  not capture that.
- WordGuess.Score requires the attempt to be as long as the secret. Every
  submitted attempt has that length (see HandleKey), so other lengths cannot
  arise.
- WordGuess.WordGuessGame.SetSecret and WordGuess.WordGuessClassic.SetSecret
  require the game not to have started, because the input only shows
  before the start. The input's `maxLength` counts the typed text before
  `toUpperCase`, so it bounds nothing the model receives and is not
  modelled.
- Characters outside the Basic Multilingual Plane are not modelled. The
  source measures `secret.length` and `guess.length` and sizes the
  colour arrays in UTF-16 code units. A Dafny `char` is one Unicode scalar
  value, so the model counts one code unit per character.
- Flappy.Game.Tick: the score is added once per tick rather than by one
  `setScore` call per crossing pipe inside the `map` callback. The totals
  agree.
- All the other components are not part of this model: the footer chat with
  its network call, the authentication panel, the game list, the sidebars,
  the routing, the settings and profile pages, the theme toggle and search.

## Findings

| source | as written | input that shows it | evidently intended | confidence | as-written member | corrected member |
|---|---|---|---|---|---|---|
| src/components/MemoryGame.jsx:53-61, 81-89 | resetGame does not cancel the 800 ms mismatch timeout. When the timeout fires it writes back a copy of the deck it captured before the reset. | Deal a deck, flip two cards with different symbols, and press reset within 800 ms with a different deal. When the timeout fires, the new deck is replaced by the old one (both cards face down), while moves and time stay at 0. | A reset should discard the pending resolution, so the fresh deal stays. | not executed | Memory.MemoryGame.ResetGame, Memory.StaleMismatchAfterReset | Memory.MemoryGame.ResetGameCancelling |
