/** The memory game of src/components/MemoryGame.jsx: a deck of six paired
    symbols, the flip guard, the two-card lock/compare/resolve cycle, the
    move counter, the timer and the win condition. */
module Memory {

  datatype Symbol = Cat | Dog | Frog | Monkey | Tiger | Fox

  const SYMBOLS: seq<Symbol> := [Cat, Dog, Frog, Monkey, Tiger, Fox]
  const DECK_SIZE: nat := 12

  datatype Card = Card(id: nat, symbol: Symbol, flipped: bool, matched: bool)

  /** A mismatch resolution waiting on its 800 ms timeout: the two indices
      and the deck the callback captured. */
  datatype Pending = Pending(first: nat, second: nat, snapshot: seq<Card>)

  function SymbolsOf(cards: seq<Card>): seq<Symbol> {
    seq(|cards|, i requires 0 <= i < |cards| => cards[i].symbol)
  }

  lemma OnceEach(s: Symbol)
    ensures multiset(SYMBOLS)[s] == 1
  {
    match s
    case Cat =>
    case Dog =>
    case Frog =>
    case Monkey =>
    case Tiger =>
    case Fox =>
  }

  /** The doubled symbol list holds every symbol exactly twice. */
  lemma PairedSymbols()
    ensures forall s :: multiset(SYMBOLS + SYMBOLS)[s] == 2
  {
    assert multiset(SYMBOLS + SYMBOLS) == multiset(SYMBOLS) + multiset(SYMBOLS);
    forall s ensures multiset(SYMBOLS + SYMBOLS)[s] == 2 {
      OnceEach(s);
    }
  }

  /** Twelve cards whose ids are their positions, holding each symbol twice. */
  predicate IsDeck(cards: seq<Card>) {
    && |cards| == DECK_SIZE
    && (forall i :: 0 <= i < |cards| ==> cards[i].id == i)
    && multiset(SymbolsOf(cards)) == multiset(SYMBOLS + SYMBOLS)
  }

  /** generateCards; shuffled is the order the random sort produced, a
      permutation of the doubled symbol list. The fresh deck holds every
      symbol exactly twice, with nothing flipped or matched. */
  function GenerateCards(shuffled: seq<Symbol>): (cards: seq<Card>)
    requires multiset(shuffled) == multiset(SYMBOLS + SYMBOLS)
    ensures IsDeck(cards) && SymbolsOf(cards) == shuffled
    ensures forall s :: multiset(SymbolsOf(cards))[s] == 2
    ensures forall i :: 0 <= i < |cards| ==> !cards[i].flipped && !cards[i].matched
    ensures !AllMatched(cards)
  {
    assert |shuffled| == |multiset(shuffled)| == DECK_SIZE;
    var cards := seq(|shuffled|, i requires 0 <= i < |shuffled| => Card(i, shuffled[i], false, false));
    assert SymbolsOf(cards) == shuffled;
    assert !cards[0].matched;
    PairedSymbols();
    cards
  }

  function SetFlipped(cards: seq<Card>, i: nat, v: bool): seq<Card>
    requires i < |cards|
  {
    cards[i := cards[i].(flipped := v)]
  }

  function SetMatched(cards: seq<Card>, i: nat): seq<Card>
    requires i < |cards|
  {
    cards[i := cards[i].(matched := true)]
  }

  predicate AllMatched(cards: seq<Card>) {
    forall i :: 0 <= i < |cards| ==> cards[i].matched
  }

  /** Changing only the flags of cards keeps a deck a deck. */
  lemma FlagsKeepDeck(a: seq<Card>, b: seq<Card>)
    requires IsDeck(a) && |a| == |b|
    requires forall i :: 0 <= i < |a| ==> b[i].id == a[i].id && b[i].symbol == a[i].symbol
    ensures IsDeck(b)
  {
    assert SymbolsOf(a) == SymbolsOf(b);
  }

  class MemoryGame {
    var cards: seq<Card>
    var selected: seq<nat>
    var moves: nat
    var locked: bool
    var won: bool
    var time: nat
    var timerOn: bool
    var scoreHistory: seq<nat>
    /** The mismatch callbacks still to fire, oldest first. */
    var pending: seq<Pending>

    /** What every reachable state satisfies, stale callbacks included. */
    ghost predicate Basic()
      reads this
    {
      && IsDeck(cards)
      && |selected| <= 2
      && (forall k :: 0 <= k < |selected| ==> selected[k] < DECK_SIZE)
      && (forall k :: 0 <= k < |pending| ==>
            IsDeck(pending[k].snapshot) && pending[k].first < DECK_SIZE && pending[k].second < DECK_SIZE)
    }

    ghost predicate Valid()
      reads this
    {
      Basic() && (|selected| == 2 ==> locked)
    }

    /** The cycle as intended: the flipped, unmatched cards are exactly the
        selected ones; two selected cards lock the board with one callback
        waiting for exactly this deck; won means every card is matched. */
    ghost predicate Settled()
      reads this
    {
      && Valid()
      && (forall i :: 0 <= i < |cards| ==> (i in selected <==> cards[i].flipped && !cards[i].matched))
      && (|selected| == 2 ==> selected[0] != selected[1])
      && (locked <==> |selected| == 2)
      && (locked ==>
            pending == [Pending(selected[0], selected[1], cards)]
            && cards[selected[0]].symbol != cards[selected[1]].symbol)
      && (!locked ==> pending == [])
      && (won <==> AllMatched(cards))
      && (won ==> !timerOn)
    }

    /** The flip guard of flipCard. */
    ghost predicate Accepts(i: nat)
      reads this
      requires i < |cards|
    {
      !locked && i !in selected && !cards[i].flipped && !cards[i].matched
    }

    constructor (shuffled: seq<Symbol>)
      requires multiset(shuffled) == multiset(SYMBOLS + SYMBOLS)
      ensures Settled() && cards == GenerateCards(shuffled)
      ensures selected == [] && moves == 0 && !locked && !won && time == 0 && !timerOn
      ensures scoreHistory == [] && pending == []
    {
      cards := GenerateCards(shuffled);
      selected := [];
      moves := 0;
      locked := false;
      won := false;
      time := 0;
      timerOn := false;
      scoreHistory := [];
      pending := [];
    }

    /** flipCard(i), followed by the pair effect when this is the second
        card. A refused flip changes nothing. An accepted one starts the
        timer, turns card i face up and selects it; with two cards selected
        the move counter grows by one and the pair either matches at once
        (and may win the game) or locks the board until its callback fires. */
    method FlipCard(i: nat)
      requires Valid() && i < |cards|
      modifies this
      ensures Valid()
      ensures old(Settled()) ==> Settled()
      ensures !old(Accepts(i)) ==>
                cards == old(cards) && selected == old(selected) && moves == old(moves) && locked == old(locked)
                && won == old(won) && time == old(time) && timerOn == old(timerOn)
                && scoreHistory == old(scoreHistory) && pending == old(pending)
      ensures old(Accepts(i)) && |old(selected)| == 0 ==>
                cards == SetFlipped(old(cards), i, true) && selected == [i] && timerOn
                && moves == old(moves) && locked == old(locked) && won == old(won) && time == old(time)
                && scoreHistory == old(scoreHistory) && pending == old(pending)
      ensures old(Accepts(i)) && |old(selected)| == 1 ==>
                var f := old(selected)[0];
                var c := SetFlipped(old(cards), i, true);
                && moves == old(moves) + 1 && time == old(time)
                && (c[f].symbol == c[i].symbol ==>
                      && cards == SetMatched(SetMatched(c, f), i) && selected == [] && !locked
                      && pending == old(pending)
                      && won == (old(won) || AllMatched(cards))
                      && timerOn == !AllMatched(cards)
                      && scoreHistory == old(scoreHistory) + (if AllMatched(cards) then [old(time)] else []))
                && (c[f].symbol != c[i].symbol ==>
                      && cards == c && selected == [f, i] && locked && timerOn
                      && pending == old(pending) + [Pending(f, i, c)]
                      && won == old(won) && scoreHistory == old(scoreHistory))
    {
      if locked || i in selected || cards[i].flipped || cards[i].matched {
        return;
      }
      ghost var was := Settled();
      TurnUp(i);
      if |selected| == 2 {
        ResolvePair(was);
      }
    }

    /** The accepted part of flipCard before the pair effect: the timer
        runs, card i is face up and selected. */
    method TurnUp(i: nat)
      requires Valid() && i < |cards| && Accepts(i)
      modifies this
      ensures Basic() && timerOn && !locked
      ensures cards == SetFlipped(old(cards), i, true) && selected == old(selected) + [i]
      ensures moves == old(moves) && won == old(won) && time == old(time)
      ensures scoreHistory == old(scoreHistory) && pending == old(pending)
      ensures |selected| < 2 && old(Settled()) ==> Settled()
      ensures |selected| == 2 && old(Settled()) ==>
                && (forall k :: 0 <= k < |cards| ==> (k in selected <==> cards[k].flipped && !cards[k].matched))
                && selected[0] != selected[1] && pending == [] && (won <==> AllMatched(cards)) && !won
    {
      var newCards := SetFlipped(cards, i, true);
      FlagsKeepDeck(cards, newCards);
      timerOn := true;
      cards := newCards;
      selected := selected + [i];
    }

    /** The effect that runs once two cards are selected (lines 36-64). A
        matching pair is marked matched and released at once; when every card
        is then matched the game is won, the timer stops and the time is
        recorded. A mismatch locks the board and leaves a callback to resolve
        it. Either way the move counter grows by one. */
    method ResolvePair(ghost was: bool)
      requires Basic() && |selected| == 2 && timerOn && !locked
      requires was ==> (forall i :: 0 <= i < |cards| ==> (i in selected <==> cards[i].flipped && !cards[i].matched))
      requires was ==> selected[0] != selected[1] && pending == [] && (won <==> AllMatched(cards)) && !won
      modifies this
      ensures Valid()
      ensures was ==> Settled()
      ensures moves == old(moves) + 1 && time == old(time)
      ensures var f := old(selected)[0];
              var s := old(selected)[1];
              && (old(cards)[f].symbol == old(cards)[s].symbol ==>
                    && cards == SetMatched(SetMatched(old(cards), f), s) && selected == [] && !locked
                    && pending == old(pending)
                    && won == (old(won) || AllMatched(cards))
                    && timerOn == !AllMatched(cards)
                    && scoreHistory == old(scoreHistory) + (if AllMatched(cards) then [old(time)] else []))
              && (old(cards)[f].symbol != old(cards)[s].symbol ==>
                    && cards == old(cards) && selected == old(selected) && locked && timerOn
                    && pending == old(pending) + [Pending(f, s, old(cards))]
                    && won == old(won) && scoreHistory == old(scoreHistory))
    {
      var first := selected[0];
      var second := selected[1];
      if cards[first].symbol == cards[second].symbol {
        MatchPair(was);
      } else {
        locked := true;
        pending := pending + [Pending(first, second, cards)];
      }
      moves := moves + 1;
    }

    /** The matching branch of the pair effect. */
    method MatchPair(ghost was: bool)
      requires Basic() && |selected| == 2 && timerOn && !locked
      requires cards[selected[0]].symbol == cards[selected[1]].symbol
      requires was ==> (forall i :: 0 <= i < |cards| ==> (i in selected <==> cards[i].flipped && !cards[i].matched))
      requires was ==> selected[0] != selected[1] && pending == [] && (won <==> AllMatched(cards)) && !won
      modifies this
      ensures Valid()
      ensures was ==> Settled()
      ensures moves == old(moves) && time == old(time) && pending == old(pending)
      ensures cards == SetMatched(SetMatched(old(cards), old(selected)[0]), old(selected)[1])
      ensures selected == [] && !locked
      ensures won == (old(won) || AllMatched(cards))
      ensures timerOn == !AllMatched(cards)
      ensures scoreHistory == old(scoreHistory) + (if AllMatched(cards) then [old(time)] else [])
    {
      var first := selected[0];
      var second := selected[1];
      var newCards := SetMatched(SetMatched(cards, first), second);
      FlagsKeepDeck(cards, newCards);
      assert forall i :: 0 <= i < |newCards| && i != first && i != second ==> newCards[i] == cards[i];
      cards := newCards;
      selected := [];
      if AllMatched(cards) {
        won := true;
        timerOn := false;
        scoreHistory := scoreHistory + [time];
      }
    }

    /** The oldest mismatch callback fires: the deck it captured comes back
        with both cards face down, nothing is selected and the board is
        unlocked. In a settled state that deck is the live one, so exactly
        the two mismatched cards turn face down and no other card changes. */
    method ResolveMismatch()
      requires Valid() && |pending| > 0
      modifies this
      ensures Valid()
      ensures var p := old(pending)[0];
              cards == SetFlipped(SetFlipped(p.snapshot, p.first, false), p.second, false)
      ensures selected == [] && !locked && pending == old(pending)[1..]
      ensures moves == old(moves) && won == old(won) && time == old(time) && timerOn == old(timerOn)
      ensures scoreHistory == old(scoreHistory)
      ensures old(Settled()) ==>
                && Settled()
                && !cards[old(selected)[0]].flipped && !cards[old(selected)[1]].flipped
                && (forall k :: 0 <= k < |cards| && k != old(selected)[0] && k != old(selected)[1] ==>
                      cards[k] == old(cards)[k])
    {
      var p := pending[0];
      var c1 := SetFlipped(p.snapshot, p.first, false);
      FlagsKeepDeck(p.snapshot, c1);
      var c2 := SetFlipped(c1, p.second, false);
      FlagsKeepDeck(c1, c2);
      cards := c2;
      selected := [];
      locked := false;
      pending := pending[1..];
    }

    /** One second of the timer: time advances only while it runs and the
        game is not won. */
    method Tick()
      requires Valid()
      modifies this
      ensures Valid() && (old(Settled()) ==> Settled())
      ensures time == if old(timerOn) && !old(won) then old(time) + 1 else old(time)
      ensures cards == old(cards) && selected == old(selected) && moves == old(moves) && locked == old(locked)
      ensures won == old(won) && timerOn == old(timerOn) && scoreHistory == old(scoreHistory)
      ensures pending == old(pending)
    {
      if timerOn && !won {
        time := time + 1;
      }
    }

    /** resetGame as written: a fresh deck and counters, the history kept,
        and any mismatch callback still pending left to fire later. The
        result is settled only when no callback was pending. */
    method ResetGame(shuffled: seq<Symbol>)
      requires Valid() && multiset(shuffled) == multiset(SYMBOLS + SYMBOLS)
      modifies this
      ensures Valid() && cards == GenerateCards(shuffled)
      ensures selected == [] && moves == 0 && time == 0 && !won && !timerOn && !locked
      ensures scoreHistory == old(scoreHistory) && pending == old(pending)
      ensures old(pending) == [] ==> Settled()
    {
      cards := GenerateCards(shuffled);
      selected := [];
      moves := 0;
      time := 0;
      won := false;
      timerOn := false;
      locked := false;
    }

    /** resetGame with the pending mismatch callback cancelled, as the reset
        evidently intends: always a settled fresh game. */
    method ResetGameCancelling(shuffled: seq<Symbol>)
      requires Valid() && multiset(shuffled) == multiset(SYMBOLS + SYMBOLS)
      modifies this
      ensures Settled() && cards == GenerateCards(shuffled)
      ensures selected == [] && moves == 0 && time == 0 && !won && !timerOn && !locked
      ensures scoreHistory == old(scoreHistory) && pending == []
    {
      ResetGame(shuffled);
      pending := [];
    }
  }

  /** Turning two face-down cards up and then down again restores the deck. */
  lemma UpAndDownAgain(deck: seq<Card>, f: nat, s: nat)
    requires f < |deck| && s < |deck| && !deck[f].flipped && !deck[s].flipped
    ensures SetFlipped(SetFlipped(SetFlipped(SetFlipped(deck, f, true), s, true), f, false), s, false) == deck
  {
    var r := SetFlipped(SetFlipped(SetFlipped(SetFlipped(deck, f, true), s, true), f, false), s, false);
    assert forall k :: 0 <= k < |deck| ==> r[k] == deck[k];
  }

  /** resetGame within 800 ms of a mismatch: the old callback still fires
      and puts the previous deck, both cards face down, in place of the one
      just dealt. Any first deal whose first two cards differ and any other
      second deal show it. */
  method StaleMismatchAfterReset(dealA: seq<Symbol>, dealB: seq<Symbol>)
      returns (dealt: seq<Card>, afterCallback: seq<Card>)
    requires multiset(dealA) == multiset(SYMBOLS + SYMBOLS)
    requires multiset(dealB) == multiset(SYMBOLS + SYMBOLS)
    requires |dealA| == DECK_SIZE && dealA[0] != dealA[1] && dealA != dealB
    ensures dealt == GenerateCards(dealB)
    ensures afterCallback == GenerateCards(dealA)
    ensures afterCallback != dealt
  {
    var deck := GenerateCards(dealA);
    var g := new MemoryGame(dealA);
    g.FlipCard(0);
    g.FlipCard(1);
    var shown := SetFlipped(SetFlipped(deck, 0, true), 1, true);
    assert g.pending == [Pending(0, 1, shown)];
    g.ResetGame(dealB);
    dealt := g.cards;
    g.ResolveMismatch();
    afterCallback := g.cards;
    UpAndDownAgain(deck, 0, 1);
  }
}
