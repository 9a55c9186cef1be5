/** The word-guessing game of src/components/WordGuessGame.jsx and its
    near-duplicate src/components/WordGuess.jsx: secret validation, editing
    of the guess buffer, and the two-pass exact/partial letter scoring. */
module WordGuess {
  import Cardinality

  const MAX_ATTEMPTS: nat := 6

  /** The tile colours of a scored row: grey, yellow, green. */
  datatype Color = Absent | Partial | Exact

  /** A secret can start a game when it is not empty and has no space. */
  predicate ValidSecret(secret: string) {
    |secret| > 0 && ' ' !in secret
  }

  /** One character of /^[A-ZА-ЯЁ]$/. */
  predicate IsLetter(c: char) {
    ('A' <= c <= 'Z') || ('\U{0410}' <= c <= '\U{042F}') || c == '\U{0401}'
  }

  /** An upper-cased key name that the guess buffer accepts. */
  predicate IsLetterKey(key: string) {
    |key| == 1 && IsLetter(key[0])
  }

  /** g.slice(0, -1). */
  function DropLast(g: string): (r: string)
    ensures |g| > 0 ==> r == g[..|g| - 1]
    ensures |g| == 0 ==> r == g
  {
    if |g| == 0 then g else g[..|g| - 1]
  }

  /** BACKSPACE undoes the letter just typed, and puts back nothing else. */
  lemma BackspaceUndoesTyping(g: string, key: string)
    requires IsLetterKey(key)
    ensures DropLast(g + key) == g
    ensures |g| > 0 ==> DropLast(g) + [g[|g| - 1]] == g
  {
  }

  /** secret.split('').findIndex((c, j) => c === ch && !used[j]), searching
      from position j on: the first free position holding ch, or -1. */
  function FindFree(secret: string, ch: char, used: seq<bool>, j: nat): (r: int)
    requires |used| == |secret| && j <= |secret|
    decreases |secret| - j
    ensures r == -1 || (j <= r < |secret| && secret[r] == ch && !used[r])
    ensures r == -1 ==> forall q :: j <= q < |secret| ==> secret[q] != ch || used[q]
    ensures r != -1 ==> forall q :: j <= q < r ==> secret[q] != ch || used[q]
  {
    if j == |secret| then -1
    else if secret[j] == ch && !used[j] then j
    else FindFree(secret, ch, used, j + 1)
  }

  /** Secret position j is no longer available to guess position k: it is a
      position matched exactly, or an earlier partial took it. */
  ghost predicate Consumed(secret: string, word: string, colors: seq<Color>, link: seq<int>, k: int, j: int)
    requires |word| == |secret| && |colors| == |secret| && |link| == |secret|
    requires 0 <= j < |secret|
  {
    word[j] == secret[j] || exists m :: 0 <= m < k && m < |colors| && colors[m] == Partial && link[m] == j
  }

  /** The two scoring passes, carried out for guess positions before i.
      Green exactly where the letters align. A yellow at k takes the leftmost
      secret position link[k] that has the same letter and is still
      available. A grey at k (that is not green) leaves no position with its
      letter available. */
  ghost predicate ScoredUpTo(secret: string, word: string, colors: seq<Color>, link: seq<int>, i: int) {
    && |word| == |secret| && |colors| == |secret| && |link| == |secret| && 0 <= i <= |secret|
    && (forall k :: 0 <= k < |secret| ==> (colors[k] == Exact <==> word[k] == secret[k]))
    && (forall k :: i <= k < |secret| ==> colors[k] != Partial)
    && (forall k :: 0 <= k < i && colors[k] == Partial ==>
          && 0 <= link[k] < |secret| && secret[link[k]] == word[k]
          && !Consumed(secret, word, colors, link, k, link[k])
          && (forall j :: 0 <= j < link[k] && secret[j] == word[k] ==> Consumed(secret, word, colors, link, k, j)))
    && (forall k :: 0 <= k < i && colors[k] == Absent ==>
          forall j :: 0 <= j < |secret| && secret[j] == word[k] ==> Consumed(secret, word, colors, link, k, j))
  }

  /** The whole row is scored, with link naming the position each yellow took. */
  ghost predicate ScoredAs(secret: string, word: string, colors: seq<Color>, link: seq<int>) {
    ScoredUpTo(secret, word, colors, link, |secret|)
  }

  /** Consumed only looks at the colours and links before k. */
  lemma ConsumedFrame(secret: string, word: string, c1: seq<Color>, l1: seq<int>, c2: seq<Color>, l2: seq<int>, i: int)
    requires |word| == |secret| && |c1| == |secret| && |l1| == |secret| && |c2| == |secret| && |l2| == |secret|
    requires 0 <= i <= |secret|
    requires forall m :: 0 <= m < i ==> c1[m] == c2[m] && l1[m] == l2[m]
    ensures forall k, j :: 0 <= k <= i && 0 <= j < |secret| ==>
              (Consumed(secret, word, c1, l1, k, j) <==> Consumed(secret, word, c2, l2, k, j))
  {
    forall k, j | 0 <= k <= i && 0 <= j < |secret|
      ensures Consumed(secret, word, c1, l1, k, j) <==> Consumed(secret, word, c2, l2, k, j)
    {
      if Consumed(secret, word, c1, l1, k, j) && word[j] != secret[j] {
        var m :| 0 <= m < k && m < |c1| && c1[m] == Partial && l1[m] == j;
        assert c2[m] == Partial && l2[m] == j;
      }
      if Consumed(secret, word, c2, l2, k, j) && word[j] != secret[j] {
        var m :| 0 <= m < k && m < |c2| && c2[m] == Partial && l2[m] == j;
        assert c1[m] == Partial && l1[m] == j;
      }
    }
  }

  /** Going from k to k + 1, Consumed gains the position guess k took, if any. */
  lemma ConsumedNext(secret: string, word: string, colors: seq<Color>, link: seq<int>, k: int, j: int)
    requires |word| == |secret| && |colors| == |secret| && |link| == |secret|
    requires 0 <= k < |secret| && 0 <= j < |secret|
    ensures Consumed(secret, word, colors, link, k + 1, j) <==>
              Consumed(secret, word, colors, link, k, j) || (colors[k] == Partial && link[k] == j)
  {
    if Consumed(secret, word, colors, link, k + 1, j) && word[j] != secret[j] {
      var m :| 0 <= m < k + 1 && m < |colors| && colors[m] == Partial && link[m] == j;
      if m < k {
        assert Consumed(secret, word, colors, link, k, j);
      }
    }
  }

  /** A yellow-pass step that finds a free position: guess i turns yellow
      and takes it. */
  lemma StepTakes(secret: string, word: string, c: seq<Color>, l: seq<int>, used: seq<bool>, i: int, idx: int)
    requires ScoredUpTo(secret, word, c, l, i) && i < |secret| && c[i] != Exact
    requires |used| == |secret|
    requires forall j :: 0 <= j < |secret| ==> (used[j] <==> Consumed(secret, word, c, l, i, j))
    requires idx == FindFree(secret, word[i], used, 0) && idx != -1
    ensures ScoredUpTo(secret, word, c[i := Partial], l[i := idx], i + 1)
    ensures forall j :: 0 <= j < |secret| ==>
              ((j == idx || used[j]) <==> Consumed(secret, word, c[i := Partial], l[i := idx], i + 1, j))
  {
    var c2, l2 := c[i := Partial], l[i := idx];
    ConsumedFrame(secret, word, c, l, c2, l2, i);
    forall j | 0 <= j < |secret|
      ensures (j == idx || used[j]) <==> Consumed(secret, word, c2, l2, i + 1, j)
    {
      ConsumedNext(secret, word, c2, l2, i, j);
    }
    assert !Consumed(secret, word, c2, l2, i, idx);
    assert forall j :: 0 <= j < idx && secret[j] == word[i] ==> Consumed(secret, word, c2, l2, i, j);
  }

  /** A yellow-pass step that changes nothing: guess i is green, or no
      position with its letter is free. */
  lemma StepSkips(secret: string, word: string, c: seq<Color>, l: seq<int>, used: seq<bool>, i: int)
    requires ScoredUpTo(secret, word, c, l, i) && i < |secret|
    requires |used| == |secret|
    requires forall j :: 0 <= j < |secret| ==> (used[j] <==> Consumed(secret, word, c, l, i, j))
    requires c[i] == Exact || FindFree(secret, word[i], used, 0) == -1
    ensures ScoredUpTo(secret, word, c, l, i + 1)
    ensures forall j :: 0 <= j < |secret| ==> (used[j] <==> Consumed(secret, word, c, l, i + 1, j))
  {
    forall j | 0 <= j < |secret|
      ensures used[j] <==> Consumed(secret, word, c, l, i + 1, j)
    {
      ConsumedNext(secret, word, c, l, i, j);
    }
  }

  /** renderRow's colouring of one attempt, on the colors and used arrays
      as the source does it: a green pass, then a yellow pass that takes the
      first free secret position with the letter. link is the position each
      yellow took (-1 elsewhere). */
  method Score(secret: string, word: string) returns (colors: seq<Color>, link: seq<int>)
    requires |word| == |secret|
    ensures ScoredAs(secret, word, colors, link)
  {
    var n := |secret|;
    var c, used := GreenPass(secret, word);
    link := seq(n, _ => -1);
    for i := 0 to n
      invariant |link| == n
      invariant ScoredUpTo(secret, word, c[..], link, i)
      invariant forall j :: 0 <= j < n ==> (used[j] <==> Consumed(secret, word, c[..], link, i, j))
    {
      var idx := -1;
      if c[i] != Exact {
        idx := FindFree(secret, word[i], used[..], 0);
      }
      if idx != -1 {
        StepTakes(secret, word, c[..], link, used[..], i, idx);
        c[i] := Partial;
        used[idx] := true;
        link := link[i := idx];
      } else {
        StepSkips(secret, word, c[..], link, used[..], i);
      }
    }
    colors := c[..];
  }

  /** The first loop of renderRow: green exactly where the letters align,
      and those are the secret positions already used; nothing is yellow yet. */
  method GreenPass(secret: string, word: string) returns (c: array<Color>, used: array<bool>)
    requires |word| == |secret|
    ensures fresh(c) && fresh(used) && c.Length == |secret| && used.Length == |secret|
    ensures ScoredUpTo(secret, word, c[..], seq(|secret|, _ => -1), 0)
    ensures forall j :: 0 <= j < |secret| ==>
              (used[j] <==> Consumed(secret, word, c[..], seq(|secret|, _ => -1), 0, j))
  {
    var n := |secret|;
    c := new Color[n](_ => Absent);
    used := new bool[n](_ => false);
    for i := 0 to n
      invariant forall k :: 0 <= k < i ==> (c[k] == Exact <==> word[k] == secret[k]) && c[k] != Partial
      invariant forall k :: 0 <= k < i ==> (used[k] <==> word[k] == secret[k])
      invariant forall k :: i <= k < n ==> c[k] == Absent && !used[k]
    {
      if word[i] == secret[i] {
        c[i] := Exact;
        used[i] := true;
      }
    }
  }

  /** Each secret position is consumed at most once: a yellow never takes a
      green position, and no two yellows take the same one. */
  lemma ConsumedAtMostOnce(secret: string, word: string, colors: seq<Color>, link: seq<int>)
    requires ScoredAs(secret, word, colors, link)
    ensures forall k :: 0 <= k < |secret| && colors[k] == Partial ==> word[link[k]] != secret[link[k]]
    ensures forall k1, k2 :: 0 <= k1 < k2 < |secret| && colors[k1] == Partial && colors[k2] == Partial ==>
              link[k1] != link[k2]
  {
    forall k1, k2 | 0 <= k1 < k2 < |secret| && colors[k1] == Partial && colors[k2] == Partial
      ensures link[k1] != link[k2]
    {
      assert Consumed(secret, word, colors, link, k2, link[k1]);
    }
  }

  /** The guess positions holding ch that are coloured green or yellow. */
  ghost function Credited(word: string, colors: seq<Color>, ch: char): set<int> {
    set i | 0 <= i < |word| && i < |colors| && word[i] == ch && colors[i] != Absent
  }

  /** The secret positions holding ch. */
  ghost function Occurrences(secret: string, ch: char): set<int> {
    set j | 0 <= j < |secret| && secret[j] == ch
  }

  /** No letter is credited more often than it occurs in the secret. */
  lemma {:induction false} CreditedAtMostOccurrences(secret: string, word: string, colors: seq<Color>, link: seq<int>, ch: char)
    requires ScoredAs(secret, word, colors, link)
    ensures |Credited(word, colors, ch)| <= |Occurrences(secret, ch)|
  {
    ConsumedAtMostOnce(secret, word, colors, link);
    var n := |secret|;
    var f := (i: int) => if 0 <= i < n && colors[i] == Partial then link[i] else i;
    var s := Credited(word, colors, ch);
    var t := Occurrences(secret, ch);
    forall x | x in s ensures f(x) in t {
      if colors[x] == Partial {
        assert 0 <= link[x] < n && secret[link[x]] == word[x];
      }
    }
    forall x, y | x in s && y in s && x != y ensures f(x) != f(y) {
      if colors[x] == Partial && colors[y] == Partial {
        if x < y {
          assert link[x] != link[y];
        } else {
          assert link[y] != link[x];
        }
      } else if colors[x] == Partial {
        assert word[link[x]] != secret[link[x]] && word[y] == secret[y];
      } else if colors[y] == Partial {
        assert word[link[y]] != secret[link[y]] && word[x] == secret[x];
      }
    }
    Cardinality.InjectiveInto(s, t, f);
  }

  /** The row of secret "ABCA" for the guess "AADD": the first A is green,
      the second A takes the free A at the end, the Ds are grey. */
  method ScoreExample() returns (colors: seq<Color>)
    ensures colors == [Exact, Partial, Absent, Absent]
  {
    var link;
    colors, link := Score("ABCA", "AADD");
    assert colors[0] == Exact;
    assert "AADD"[3] != "ABCA"[3] && "ABCA"[3] == 'A';
    assert !Consumed("ABCA", "AADD", colors, link, 1, 3);
    assert colors[1] != Absent;
    assert colors[2] == Absent && colors[3] == Absent;
  }

  /** The game of src/components/WordGuessGame.jsx; its key handler is a
      row of independent ifs. */
  class WordGuessGame {
    var secret: string
    var guess: string
    var attempts: seq<string>
    var started: bool

    ghost predicate Valid()
      reads this
    {
      && |guess| <= |secret| && |attempts| <= MAX_ATTEMPTS
      && (forall k :: 0 <= k < |attempts| ==> |attempts[k]| == |secret|)
      && (forall i :: 0 <= i < |guess| ==> IsLetter(guess[i]))
      && (forall k, i :: 0 <= k < |attempts| && 0 <= i < |attempts[k]| ==> IsLetter(attempts[k][i]))
      && (started ==> ValidSecret(secret))
      && (!started ==> guess == [] && attempts == [])
    }

    constructor ()
      ensures Valid() && secret == [] && guess == [] && attempts == [] && !started
    {
      secret := [];
      guess := [];
      attempts := [];
      started := false;
    }

    /** The secret input, shown only before the start; text is the
        upper-cased value. */
    method SetSecret(text: string)
      requires Valid() && !started
      modifies this
      ensures Valid() && secret == text && guess == old(guess) && attempts == old(attempts) && !started
    {
      secret := text;
    }

    /** start: the game begins only with a valid secret. */
    method Start()
      requires Valid()
      modifies this
      ensures Valid() && started == (old(started) || ValidSecret(secret))
      ensures secret == old(secret) && guess == old(guess) && attempts == old(attempts)
    {
      if ValidSecret(secret) {
        started := true;
      }
    }

    /** The key handler (lines 24-38); key is the upper-cased key name.
        Nothing happens before the start or once six attempts exist; a win
        does not stop input. A letter is appended while the guess is shorter
        than the secret, BACKSPACE drops the last letter, and ENTER submits a
        full-length guess and clears the buffer. */
    method HandleKey(key: string)
      requires Valid()
      modifies this
      ensures Valid() && secret == old(secret) && started == old(started)
      ensures old(Won()) ==> Won()
      ensures old(Lost()) ==> Lost() && guess == old(guess) && attempts == old(attempts)
      ensures !old(started) || |old(attempts)| >= MAX_ATTEMPTS ==>
                guess == old(guess) && attempts == old(attempts)
      ensures old(started) && |old(attempts)| < MAX_ATTEMPTS ==>
                && (IsLetterKey(key) ==>
                      guess == (if |old(guess)| < |secret| then old(guess) + key else old(guess))
                      && attempts == old(attempts))
                && (key == "BACKSPACE" ==> guess == DropLast(old(guess)) && attempts == old(attempts))
                && (key == "ENTER" && |old(guess)| == |secret| ==>
                      guess == [] && attempts == old(attempts) + [old(guess)])
                && (key == "ENTER" && |old(guess)| != |secret| ==>
                      guess == old(guess) && attempts == old(attempts))
                && (!IsLetterKey(key) && key != "BACKSPACE" && key != "ENTER" ==>
                      guess == old(guess) && attempts == old(attempts))
    {
      if !started || |attempts| >= MAX_ATTEMPTS {
        return;
      }
      var g := guess;
      if IsLetterKey(key) && |g| < |secret| {
        guess := guess + key;
      }
      if key == "BACKSPACE" {
        guess := DropLast(guess);
      }
      if key == "ENTER" && |g| == |secret| {
        attempts := attempts + [g];
        guess := [];
      }
    }

    /** The win banner: the secret is among the attempts. */
    function Won(): (r: bool)
      reads this
      requires Valid()
      ensures r <==> exists k :: 0 <= k < |attempts| && attempts[k] == secret
      ensures r ==> started && ValidSecret(secret) && forall i :: 0 <= i < |secret| ==> IsLetter(secret[i])
    {
      secret in attempts
    }

    /** The loss banner: six attempts, none of them the secret. */
    function Lost(): (r: bool)
      reads this
      requires Valid()
      ensures r <==> |attempts| == MAX_ATTEMPTS && forall k :: 0 <= k < |attempts| ==> attempts[k] != secret
      ensures !(r && Won())
      ensures r ==> started && ValidSecret(secret)
      ensures started && |attempts| == MAX_ATTEMPTS ==> r || Won()
    {
      |attempts| == MAX_ATTEMPTS && !Won()
    }

    /** start refuses only an empty secret or a space, but a guess takes
        only letters of IsLetter: a secret with any other character (a digit,
        or a letter outside A-Z, А-Я and Ё) is started and can never be won;
        with all six attempts used the game is lost. */
    lemma NonLetterSecretNeverWon()
      requires Valid() && exists i :: 0 <= i < |secret| && !IsLetter(secret[i])
      ensures !Won()
      ensures started && |attempts| == MAX_ATTEMPTS ==> Lost()
    {
      var i :| 0 <= i < |secret| && !IsLetter(secret[i]);
    }
  }

  /** The game of src/components/WordGuess.jsx; its key handler is an
      else-if chain. */
  class WordGuessClassic {
    var secretWord: string
    var guess: string
    var attempts: seq<string>
    var gameStarted: bool

    ghost predicate Valid()
      reads this
    {
      && |guess| <= |secretWord| && |attempts| <= MAX_ATTEMPTS
      && (forall k :: 0 <= k < |attempts| ==> |attempts[k]| == |secretWord|)
      && (forall i :: 0 <= i < |guess| ==> IsLetter(guess[i]))
      && (forall k, i :: 0 <= k < |attempts| && 0 <= i < |attempts[k]| ==> IsLetter(attempts[k][i]))
      && (gameStarted ==> ValidSecret(secretWord))
      && (!gameStarted ==> guess == [] && attempts == [])
    }

    constructor ()
      ensures Valid() && secretWord == [] && guess == [] && attempts == [] && !gameStarted
    {
      secretWord := [];
      guess := [];
      attempts := [];
      gameStarted := false;
    }

    method SetSecret(text: string)
      requires Valid() && !gameStarted
      modifies this
      ensures Valid() && secretWord == text && guess == old(guess) && attempts == old(attempts) && !gameStarted
    {
      secretWord := text;
    }

    /** startGame: an empty secret or one with a space is refused. */
    method StartGame()
      requires Valid()
      modifies this
      ensures Valid() && gameStarted == (old(gameStarted) || ValidSecret(secretWord))
      ensures secretWord == old(secretWord) && guess == old(guess) && attempts == old(attempts)
    {
      if |secretWord| == 0 || ' ' in secretWord {
        return;
      }
      gameStarted := true;
    }

    /** handleKeyPress; key is the upper-cased key name. */
    method HandleKeyPress(key: string)
      requires Valid()
      modifies this
      ensures Valid() && secretWord == old(secretWord) && gameStarted == old(gameStarted)
      ensures old(Won()) ==> Won()
      ensures old(Lost()) ==> Lost() && guess == old(guess) && attempts == old(attempts)
      ensures !old(gameStarted) || |old(attempts)| >= MAX_ATTEMPTS ==>
                guess == old(guess) && attempts == old(attempts)
      ensures old(gameStarted) && |old(attempts)| < MAX_ATTEMPTS ==>
                && (IsLetterKey(key) ==>
                      guess == (if |old(guess)| < |secretWord| then old(guess) + key else old(guess))
                      && attempts == old(attempts))
                && (key == "BACKSPACE" ==> guess == DropLast(old(guess)) && attempts == old(attempts))
                && (key == "ENTER" && |old(guess)| == |secretWord| ==>
                      guess == [] && attempts == old(attempts) + [old(guess)])
                && (key == "ENTER" && |old(guess)| != |secretWord| ==>
                      guess == old(guess) && attempts == old(attempts))
                && (!IsLetterKey(key) && key != "BACKSPACE" && key != "ENTER" ==>
                      guess == old(guess) && attempts == old(attempts))
    {
      if !gameStarted || |attempts| >= MAX_ATTEMPTS {
        return;
      }
      if IsLetterKey(key) && |guess| < |secretWord| {
        guess := guess + key;
      } else if key == "BACKSPACE" {
        guess := DropLast(guess);
      } else if key == "ENTER" && |guess| == |secretWord| {
        attempts := attempts + [guess];
        guess := [];
      }
    }

    function Won(): (r: bool)
      reads this
      requires Valid()
      ensures r <==> exists k :: 0 <= k < |attempts| && attempts[k] == secretWord
      ensures r ==> gameStarted && ValidSecret(secretWord) && forall i :: 0 <= i < |secretWord| ==> IsLetter(secretWord[i])
    {
      secretWord in attempts
    }

    function Lost(): (r: bool)
      reads this
      requires Valid()
      ensures r <==> |attempts| == MAX_ATTEMPTS && forall k :: 0 <= k < |attempts| ==> attempts[k] != secretWord
      ensures !(r && Won())
      ensures r ==> gameStarted && ValidSecret(secretWord)
      ensures gameStarted && |attempts| == MAX_ATTEMPTS ==> r || Won()
    {
      |attempts| == MAX_ATTEMPTS && !Won()
    }
  }
}
