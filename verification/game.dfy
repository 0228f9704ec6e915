/**
 The card-flip state machine: `startGame`, `flipBackCards`, `flipCard` and the callbacks
 they leave behind. DOM identity is replaced by a card's index on the board, and the
 `setTimeout` callbacks become pending tasks that the environment runs later.
 */
module Game {
  import opened Wrappers
  import opened Shuffling
  import opened Board

  /** The figures written into the win panel. */
  datatype Score = Score(moves: nat, seconds: nat)

  /**
   The source's `state` record, its interval handle reduced to whether a tick source is
   live, plus the two pieces of page state the logic reads back: the start button's
   `disabled` class and the win panel (None while the board faces the player).
   */
  datatype GameState = GameState(
    gameStarted: bool,
    flippedCards: nat,
    totalFlips: nat,
    totalTime: nat,
    timerActive: bool,
    startDisabled: bool,
    banner: Option<Score>)

  /** A deferred callback: the 800 ms `flipBackCards` or the 700 ms win announcement. */
  datatype Task = FlipBack | AnnounceWin

  /** The page: the board element, the state record and the callbacks not yet run. */
  datatype Game = Game(element: BoardElement, state: GameState, pending: seq<Task>)

  /** The state record as the script initialises it. */
  const InitialState: GameState := GameState(false, 0, 0, 0, false, false, None)

  /** A card matched by the `.flipped:not(.matched)` selector. */
  predicate IsFaceUp(c: Card) {
    c.flipped && !c.matched
  }

  /** `document.querySelectorAll('.flipped:not(.matched)')` from position `i` on. */
  function FaceUpFrom(cards: seq<Card>, i: nat): (r: seq<nat>)
    requires i <= |cards|
    ensures forall k :: 0 <= k < |r| ==> i <= r[k] < |cards| && IsFaceUp(cards[r[k]])
    ensures forall j :: i <= j < |cards| && IsFaceUp(cards[j]) ==> j in r
    ensures forall a, b :: 0 <= a < b < |r| ==> r[a] < r[b]
    decreases |cards| - i
  {
    if i == |cards| then []
    else if IsFaceUp(cards[i]) then [i] + FaceUpFrom(cards, i + 1)
    else FaceUpFrom(cards, i + 1)
  }

  /** The positions of the face-up unmatched cards, in document order. */
  function FaceUp(cards: seq<Card>): seq<nat> {
    FaceUpFrom(cards, 0)
  }

  /** The win test: `document.querySelectorAll('.card:not(.matched)')` is empty. */
  predicate AllMatched(cards: seq<Card>) {
    forall j :: 0 <= j < |cards| ==> cards[j].matched
  }

  /** Some face-up card carries the symbol of card `k`. */
  predicate TwinShowing(cards: seq<Card>, k: int)
    requires 0 <= k < |cards|
  {
    exists j :: 0 <= j < |cards| && IsFaceUp(cards[j]) && cards[j].symbol == cards[k].symbol
  }

  /** The early returns of `flipCard`. */
  predicate Refused(g: Game, k: int)
    requires 0 <= k < |g.element.cards|
  {
    var c := g.element.cards[k];
    c.flipped || c.matched || g.state.flippedCards >= 2
  }

  /**
   `startGame` on the state record: the game counts as started, the start button is
   disabled, the clock and the move count restart from 0 and an interval is live. The
   counter of face-up cards and the win panel are not touched.
   */
  function StartGame(st: GameState): (r: GameState)
    ensures r.gameStarted && r.startDisabled && r.timerActive
    ensures r.totalTime == 0 && r.totalFlips == 0
    ensures r.flippedCards == st.flippedCards && r.banner == st.banner
  {
    st.(gameStarted := true, startDisabled := true, totalTime := 0, totalFlips := 0, timerActive := true)
  }

  /** Calling `startGame` a second time leaves the state one call left. */
  lemma StartGameIdempotent(st: GameState)
    ensures StartGame(StartGame(st)) == StartGame(st)
    ensures StartGame(st).timerActive && StartGame(st).totalTime == 0
  {
  }

  /** Replacing one card changes the count of face-up cards from `i` on by its own change. */
  lemma {:induction false} FaceUpFromUpdate(cards: seq<Card>, i: nat, k: nat, c: Card)
    requires i <= |cards| && k < |cards|
    ensures |FaceUpFrom(cards[k := c], i)| + (if i <= k && IsFaceUp(cards[k]) then 1 else 0)
         == |FaceUpFrom(cards, i)| + (if i <= k && IsFaceUp(c) then 1 else 0)
    decreases |cards| - i
  {
    if i < |cards| {
      FaceUpFromUpdate(cards, i + 1, k, c);
    }
  }

  /** No face-up card at all: the selector matches nothing. */
  lemma {:induction false} NoneFaceUp(cards: seq<Card>, i: nat)
    requires i <= |cards|
    requires forall j :: 0 <= j < |cards| ==> !IsFaceUp(cards[j])
    ensures FaceUpFrom(cards, i) == []
    decreases |cards| - i
  {
    if i < |cards| {
      NoneFaceUp(cards, i + 1);
    }
  }

  /** With one face-up card, it is the only position the selector matches. */
  lemma SingleFaceUp(cards: seq<Card>, j: nat)
    requires |FaceUp(cards)| == 1 && j < |cards|
    ensures IsFaceUp(cards[j]) <==> j == FaceUp(cards)[0]
  {
  }

  /** `card.classList.add('flipped')` on a card that is neither flipped nor matched. */
  function TurnUp(cards: seq<Card>, k: nat): (r: seq<Card>)
    requires k < |cards| && !cards[k].flipped && !cards[k].matched
    ensures |r| == |cards| && IsFaceUp(r[k])
    ensures |FaceUp(r)| == |FaceUp(cards)| + 1
  {
    FaceUpFromUpdate(cards, 0, k, cards[k].(flipped := true));
    cards[k := cards[k].(flipped := true)]
  }

  /** `flipped.forEach(f => f.classList.add('matched'))`. */
  function MarkMatched(cards: seq<Card>): (r: seq<Card>)
    ensures |r| == |cards|
    ensures forall j :: 0 <= j < |cards| ==> !IsFaceUp(r[j])
    ensures forall j :: 0 <= j < |cards| ==>
              r[j] == if IsFaceUp(cards[j]) then cards[j].(matched := true) else cards[j]
  {
    seq(|cards|, j requires 0 <= j < |cards| =>
      if IsFaceUp(cards[j]) then cards[j].(matched := true) else cards[j])
  }

  /** The `forEach` of `flipBackCards` over the unmatched cards. */
  function TurnDownUnmatched(cards: seq<Card>): (r: seq<Card>)
    ensures |r| == |cards|
    ensures forall j :: 0 <= j < |cards| ==> !IsFaceUp(r[j])
    ensures forall j :: 0 <= j < |cards| ==>
              r[j] == if cards[j].matched then cards[j] else cards[j].(flipped := false)
  {
    seq(|cards|, j requires 0 <= j < |cards| =>
      if cards[j].matched then cards[j] else cards[j].(flipped := false))
  }

  /**
   With the second card just turned up, the two positions the selector returns are that
   card and the one that was already face up.
   */
  lemma PairAfterTurnUp(cards: seq<Card>, k: nat)
    requires k < |cards| && !cards[k].flipped && !cards[k].matched
    requires |FaceUp(cards)| == 1
    ensures var f := FaceUp(TurnUp(cards, k)); var p := FaceUp(cards)[0];
            |f| == 2 && ((f[0] == p && f[1] == k) || (f[0] == k && f[1] == p))
  {
    var up := TurnUp(cards, k);
    var f := FaceUp(up);
    var p := FaceUp(cards)[0];
    assert IsFaceUp(cards[p]);
    assert p != k;
    assert up[p] == cards[p];
    assert p in f && k in f;
  }

  /** A twin is showing exactly when the one face-up card carries the clicked card's symbol. */
  lemma TwinIsTheFaceUpCard(cards: seq<Card>, k: nat)
    requires k < |cards| && |FaceUp(cards)| == 1
    ensures TwinShowing(cards, k) <==> cards[FaceUp(cards)[0]].symbol == cards[k].symbol
  {
    var p := FaceUp(cards)[0];
    if TwinShowing(cards, k) {
      var j :| 0 <= j < |cards| && IsFaceUp(cards[j]) && cards[j].symbol == cards[k].symbol;
      SingleFaceUp(cards, j);
    }
  }

  /** With no card face up there is no twin showing. */
  lemma NoTwinWhenNoneFaceUp(cards: seq<Card>, k: nat)
    requires k < |cards| && |FaceUp(cards)| == 0
    ensures !TwinShowing(cards, k)
  {
  }

  /** `flipped[0].innerText === flipped[1].innerText` for the first two face-up cards. */
  predicate PairMatches(cards: seq<Card>)
    requires |FaceUp(cards)| >= 2
  {
    var f := FaceUp(cards);
    cards[f[0]].symbol == cards[f[1]].symbol
  }

  /**
   The second half of `flipCard` once the clicked card is up and the counters are bumped:
   with two cards face up, a pair is matched at once and a mismatch schedules
   `flipBackCards`; then, if no unmatched card remains, the win announcement is scheduled.
   */
  function Resolve(element: BoardElement, st: GameState, pending: seq<Task>): (r: Game)
    requires st.flippedCards == |FaceUp(element.cards)|
    ensures r.state.flippedCards == |FaceUp(r.element.cards)|
  {
    var cards := element.cards;
    var (cards2, count2, pending2) :=
      if st.flippedCards == 2 then
        if PairMatches(cards) then
          var m := MarkMatched(cards);
          NoneFaceUp(m, 0);
          (m, 0, pending)
        else (cards, 2, pending + [FlipBack])
      else (cards, st.flippedCards, pending);
    var pending3 := if AllMatched(cards2) then pending2 + [AnnounceWin] else pending2;
    Game(element.(cards := cards2), st.(flippedCards := count2), pending3)
  }

  /**
   `flipCard` on the card at position `k`. It needs the counter to agree with the board:
   the source indexes the first two face-up cards without checking that they exist.
   */
  function FlipCard(g: Game, k: int): (r: Game)
    requires 0 <= k < |g.element.cards|
    requires g.state.flippedCards == |FaceUp(g.element.cards)|
    ensures Refused(g, k) ==> r == g
    ensures !Refused(g, k) ==>
      var c := g.element.cards;
      var st := g.state;
      var twin := TwinShowing(c, k);
      && r.element.dimension == g.element.dimension
      && |r.element.cards| == |c|
      && r.element.cards[k] == c[k].(flipped := true, matched := twin)
      && (forall j :: 0 <= j < |c| && j != k ==>
            r.element.cards[j] == if IsFaceUp(c[j]) then c[j].(matched := twin) else c[j])
      && r.state.flippedCards == (if twin then 0 else st.flippedCards + 1)
      && r.state.totalFlips == (if st.gameStarted then st.totalFlips + 1 else 0)
      && r.state.totalTime == (if st.gameStarted then st.totalTime else 0)
      && r.state.gameStarted
      && r.state.timerActive == (st.timerActive || !st.gameStarted)
      && r.state.startDisabled == (st.startDisabled || !st.gameStarted)
      && r.state.banner == st.banner
      && r.pending == g.pending + (if st.flippedCards == 1 && !twin then [FlipBack] else [])
                                + (if AllMatched(r.element.cards) then [AnnounceWin] else [])
    ensures r.state.flippedCards == |FaceUp(r.element.cards)|
  {
    var c := g.element.cards;
    if c[k].flipped || c[k].matched then g
    else if g.state.flippedCards >= 2 then g
    else
      var up := TurnUp(c, k);
      var counted := g.state.(flippedCards := g.state.flippedCards + 1, totalFlips := g.state.totalFlips + 1);
      var started := if !counted.gameStarted then StartGame(counted) else counted;
      FlipCardEffect(g, k);
      Resolve(g.element.(cards := up), started, g.pending)
  }

  /** An accepted first card: it goes up alone and nothing is compared. */
  lemma FlipFirstEffect(g: Game, k: nat)
    requires k < |g.element.cards|
    requires g.state.flippedCards == |FaceUp(g.element.cards)| == 0
    requires !Refused(g, k)
    ensures var c := g.element.cards;
      var up := TurnUp(c, k);
      && !TwinShowing(c, k)
      && !AllMatched(up)
      && up[k] == c[k].(flipped := true)
      && (forall j :: 0 <= j < |c| && j != k ==> up[j] == c[j] && !IsFaceUp(c[j]))
  {
    var c := g.element.cards;
    NoTwinWhenNoneFaceUp(c, k);
  }

  /**
   An accepted second card: the two face-up cards are it and the card already up, so the
   comparison finds a pair exactly when a twin was showing, and matching touches only them.
   */
  lemma FlipSecondEffect(g: Game, k: nat)
    requires k < |g.element.cards|
    requires g.state.flippedCards == |FaceUp(g.element.cards)| == 1
    requires !Refused(g, k)
    ensures var c := g.element.cards;
      var up := TurnUp(c, k);
      var twin := TwinShowing(c, k);
      && (PairMatches(up) <==> twin)
      && up[k] == c[k].(flipped := true)
      && (forall j :: 0 <= j < |c| && j != k ==> up[j] == c[j])
      && (forall j :: 0 <= j < |c| ==> (IsFaceUp(up[j]) <==> j == k || IsFaceUp(c[j])))
  {
    var c := g.element.cards;
    PairAfterTurnUp(c, k);
    TwinIsTheFaceUpCard(c, k);
  }

  /** The proof of FlipCard's contract for an accepted click, case by case on the face-up count. */
  lemma FlipCardEffect(g: Game, k: nat)
    requires k < |g.element.cards|
    requires g.state.flippedCards == |FaceUp(g.element.cards)|
    requires !Refused(g, k)
    ensures var c := g.element.cards;
      var st := g.state;
      var up := TurnUp(c, k);
      var counted := st.(flippedCards := st.flippedCards + 1, totalFlips := st.totalFlips + 1);
      var started := if !counted.gameStarted then StartGame(counted) else counted;
      var r := Resolve(g.element.(cards := up), started, g.pending);
      var twin := TwinShowing(c, k);
      && |r.element.cards| == |c|
      && r.element.cards[k] == c[k].(flipped := true, matched := twin)
      && (forall j :: 0 <= j < |c| && j != k ==>
            r.element.cards[j] == if IsFaceUp(c[j]) then c[j].(matched := twin) else c[j])
      && r.state.flippedCards == (if twin then 0 else st.flippedCards + 1)
      && r.pending == g.pending + (if st.flippedCards == 1 && !twin then [FlipBack] else [])
                                + (if AllMatched(r.element.cards) then [AnnounceWin] else [])
  {
    var c := g.element.cards;
    if g.state.flippedCards == 1 {
      FlipSecondEffect(g, k);
    } else {
      FlipFirstEffect(g, k);
    }
  }

  /**
   `flipBackCards`: every unmatched card is turned face down, matched cards are left as
   they are, and the counter is cleared, so it again agrees with the board.
   */
  function FlipBackCards(g: Game): (r: Game)
    ensures r.element.dimension == g.element.dimension
    ensures |r.element.cards| == |g.element.cards|
    ensures forall j :: 0 <= j < |g.element.cards| ==>
              var before := g.element.cards[j];
              var after := r.element.cards[j];
              && after.symbol == before.symbol && after.matched == before.matched
              && (before.matched ==> after == before)
              && (!before.matched ==> !after.flipped)
    ensures r.state.flippedCards == 0 == |FaceUp(r.element.cards)|
    ensures r.state == g.state.(flippedCards := 0) && r.pending == g.pending
  {
    var down := TurnDownUnmatched(g.element.cards);
    NoneFaceUp(down, 0);
    Game(g.element.(cards := down), g.state.(flippedCards := 0), g.pending)
  }

  /** The 700 ms callback: the interval is cleared and the win panel shows moves and seconds. */
  function Announce(g: Game): (r: Game)
    ensures r.element == g.element && r.pending == g.pending
    ensures !r.state.timerActive
    ensures r.state.banner == Some(Score(g.state.totalFlips, g.state.totalTime))
    ensures r.state.(timerActive := g.state.timerActive, banner := g.state.banner) == g.state
  {
    g.(state := g.state.(timerActive := false, banner := Some(Score(g.state.totalFlips, g.state.totalTime))))
  }

  /**
   The environment runs the pending callback at position `k`, which is then gone. A
   turn-back leaves no card face up and matched cards as they were; the win callback
   stops the clock and shows the score, leaving the board alone.
   */
  function RunTask(g: Game, k: nat): (r: Game)
    requires k < |g.pending|
    ensures r.pending == g.pending[..k] + g.pending[k + 1..]
    ensures r.element.dimension == g.element.dimension
    ensures g.pending[k] == FlipBack ==>
              && r.state == g.state.(flippedCards := 0)
              && |FaceUp(r.element.cards)| == 0
              && |r.element.cards| == |g.element.cards|
              && forall j :: 0 <= j < |g.element.cards| ==>
                   var before := g.element.cards[j];
                   var after := r.element.cards[j];
                   && after.symbol == before.symbol && after.matched == before.matched
                   && (before.matched ==> after == before)
                   && (!before.matched ==> !after.flipped)
    ensures g.pending[k] == AnnounceWin ==>
              && r.element == g.element
              && !r.state.timerActive
              && r.state.banner == Some(Score(g.state.totalFlips, g.state.totalTime))
              && r.state.(timerActive := g.state.timerActive, banner := g.state.banner) == g.state
  {
    var rest := g.(pending := g.pending[..k] + g.pending[k + 1..]);
    match g.pending[k]
    case FlipBack => FlipBackCards(rest)
    case AnnounceWin => Announce(rest)
  }

  /** One run of the interval callback; a cleared interval no longer fires. */
  function Tick(g: Game): (r: Game)
    ensures r.element == g.element && r.pending == g.pending
    ensures r.state.totalTime == if g.state.timerActive then g.state.totalTime + 1 else g.state.totalTime
    ensures r.state.(totalTime := g.state.totalTime) == g.state
  {
    if g.state.timerActive then g.(state := g.state.(totalTime := g.state.totalTime + 1)) else g
  }

  /**
   The start button's listener: nothing while the button carries `disabled`; otherwise
   `startGame` resets the clock and the move count and disables the button, leaving the
   board, the face-up counter, the win panel and the pending callbacks alone.
   */
  function StartPressed(g: Game): (r: Game)
    ensures g.state.startDisabled ==> r == g
    ensures !g.state.startDisabled ==>
              && r.element == g.element && r.pending == g.pending
              && r.state.gameStarted && r.state.startDisabled && r.state.timerActive
              && r.state.totalTime == 0 && r.state.totalFlips == 0
              && r.state.flippedCards == g.state.flippedCards && r.state.banner == g.state.banner
  {
    if g.state.startDisabled then g else g.(state := StartGame(g.state))
  }

  /** `disabled` is never removed, so after one press the start button does nothing. */
  lemma StartButtonInertAfterPress(g: Game)
    ensures StartPressed(StartPressed(g)).state.startDisabled
    ensures StartPressed(StartPressed(g)) == StartPressed(g)
  {
  }

  /**
   The restart button's listener. The button is part of the win panel, and a click on it
   is taken to arrive only while the panel shows; any other click changes nothing. The
   panel is hidden, `gameStarted` is cleared and `generateGame` runs again on the current
   board. When it throws, the board stays as it was. Counters are left for the next
   `startGame` to reset.
   */
  function Restart(version: Version, g: Game, rand: seq<real>): (r: Game)
    requires EnoughSymbols(DimensionValue(g.element.dimension))
    requires IsRandomStream(rand) && DrawsNeeded(DimensionValue(g.element.dimension)) <= |rand|
    ensures g.state.banner.None? ==> r == g
    ensures g.state.banner.Some? ==>
              && r.state == g.state.(banner := None, gameStarted := false)
              && r.pending == g.pending
              && (IsEven(DimensionValue(g.element.dimension)) ==>
                    var d := DimensionValue(g.element.dimension);
                    r.element.dimension == DimensionAfter(version, g.element) &&
                    |r.element.cards| == CardCount(d) && InPairs(r.element.cards) &&
                    forall j :: 0 <= j < |r.element.cards| ==> FaceDown(r.element.cards[j]))
              && (!IsEven(DimensionValue(g.element.dimension)) ==> r.element == g.element)
  {
    if g.state.banner.None? then g
    else
      var hidden := g.state.(banner := None, gameStarted := false);
      match Generate(version, g.element, rand)
      case Fail(_) => g.(state := hidden)
      case Ok(element) => Game(element, hidden, g.pending)
  }

  /**
   The script's start-up: `generateGame` on the page's board, with the state record as
   declared. A throw here stops the script before any listener is attached.
   */
  function Init(version: Version, page: BoardElement, rand: seq<real>): (r: Result<Game>)
    requires EnoughSymbols(DimensionValue(page.dimension))
    requires IsRandomStream(rand) && DrawsNeeded(DimensionValue(page.dimension)) <= |rand|
    ensures r.Fail? <==> !IsEven(DimensionValue(page.dimension))
    ensures r.Ok? ==> r.value.state == InitialState && r.value.pending == []
    ensures r.Ok? ==> var d := DimensionValue(page.dimension);
                      r.value.element.dimension == DimensionAfter(version, page) &&
                      |r.value.element.cards| == CardCount(d) && InPairs(r.value.element.cards)
    ensures r.Ok? ==> forall j :: 0 <= j < |r.value.element.cards| ==> FaceDown(r.value.element.cards[j])
  {
    match Generate(version, page, rand)
    case Fail(m) => Fail(m)
    case Ok(element) => Ok(Game(element, InitialState, []))
  }
}
