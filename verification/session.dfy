/**
 The page as the browser drives it: every event the environment can deliver (a card
 click, a due callback, an interval tick, the start and restart buttons) is one Step,
 and any sequence of them from start-up keeps the invariant.
 */
module Session {
  import opened Wrappers
  import opened Shuffling
  import opened Board
  import opened Game
  import opened Invariant

  /**
   What the environment delivers. A click names a card by position; a position with no
   card, or a callback position with nothing pending, is an event that cannot occur and
   changes nothing. A restart click carries the draws its `generateGame` consumes.
   */
  datatype Event =
    | CardClicked(index: int)
    | TaskDue(position: nat)
    | IntervalTick
    | StartClicked
    | RestartClicked(rand: seq<real>)

  /** A restart click must bring enough valid draws for a board of the page's dimension. */
  predicate Admissible(dimension: Option<int>, e: Event) {
    e.RestartClicked? ==> IsRandomStream(e.rand) && DrawsNeeded(DimensionValue(dimension)) <= |e.rand|
  }

  /**
   The invariant together with the board's pairing: every symbol on it occurs twice. As
   written, the board has lost its `data-dimension` attribute from start-up on.
   */
  predicate Playing(version: Version, g: Game) {
    && Inv(g) && InPairs(g.element.cards) && IsEven(DimensionValue(g.element.dimension))
    && (version.AsWritten? ==> g.element.dimension == None)
  }

  /** Cards whose symbols agree position by position pair up alike. */
  lemma SameSymbolsInPairs(c: seq<Card>, rc: seq<Card>)
    requires |rc| == |c| && InPairs(c)
    requires forall j :: 0 <= j < |c| ==> rc[j].symbol == c[j].symbol
    ensures InPairs(rc)
  {
    assert Symbols(rc) == Symbols(c);
  }

  /** A click changes flags only, so the symbols on the board stay where they are. */
  lemma ClickKeepsPairs(g: Game, k: nat)
    requires k < |g.element.cards| && g.state.flippedCards == |FaceUp(g.element.cards)|
    requires InPairs(g.element.cards)
    ensures InPairs(FlipCard(g, k).element.cards)
  {
    var c := g.element.cards;
    var rc := FlipCard(g, k).element.cards;
    if !Refused(g, k) {
      assert forall j :: 0 <= j < |c| ==> rc[j].symbol == c[j].symbol by {
        forall j | 0 <= j < |c| ensures rc[j].symbol == c[j].symbol {
          if j != k {
            assert rc[j] == if IsFaceUp(c[j]) then c[j].(matched := TwinShowing(c, k)) else c[j];
          }
        }
      }
      SameSymbolsInPairs(c, rc);
    }
  }

  /** A click on a card keeps the game playing. */
  lemma ClickKeepsPlaying(version: Version, g: Game, k: nat)
    requires Playing(version, g) && k < |g.element.cards|
    ensures Playing(version, FlipCard(g, k)) && FlipCard(g, k).element.dimension == g.element.dimension
  {
    FlipCardKeepsInv(g, k);
    ClickKeepsPairs(g, k);
  }

  /** A due callback keeps the game playing. */
  lemma TaskKeepsPlaying(version: Version, g: Game, k: nat)
    requires Playing(version, g) && k < |g.pending|
    ensures Playing(version, RunTask(g, k)) && RunTask(g, k).element.dimension == g.element.dimension
  {
    RunTaskKeepsInv(g, k);
    SameSymbolsInPairs(g.element.cards, RunTask(g, k).element.cards);
  }

  /** A restart keeps the game playing: the new board is dealt in pairs again. */
  lemma RestartKeepsPlaying(version: Version, g: Game, rand: seq<real>)
    requires Playing(version, g) && EnoughSymbols(DimensionValue(g.element.dimension))
    requires IsRandomStream(rand) && DrawsNeeded(DimensionValue(g.element.dimension)) <= |rand|
    ensures Playing(version, Restart(version, g, rand))
    ensures Restart(version, g, rand).element.dimension == g.element.dimension
  {
    RestartKeepsInv(version, g, rand);
  }

  /** One event, handled by the listener or callback it reaches. */
  function Step(version: Version, g: Game, e: Event): (r: Game)
    requires Playing(version, g) && EnoughSymbols(DimensionValue(g.element.dimension))
    requires Admissible(g.element.dimension, e)
    ensures Playing(version, r) && r.element.dimension == g.element.dimension
  {
    match e
    case CardClicked(k) =>
      if 0 <= k < |g.element.cards| then
        ClickKeepsPlaying(version, g, k);
        FlipCard(g, k)
      else g
    case TaskDue(k) =>
      if k < |g.pending| then
        TaskKeepsPlaying(version, g, k);
        RunTask(g, k)
      else g
    case IntervalTick =>
      TickKeepsInv(g);
      Tick(g)
    case StartClicked =>
      StartPressedKeepsInv(g);
      StartPressed(g)
    case RestartClicked(rand) =>
      RestartKeepsPlaying(version, g, rand);
      Restart(version, g, rand)
  }

  /** A sequence of events, delivered in order. */
  function Run(version: Version, g: Game, events: seq<Event>): (r: Game)
    requires Playing(version, g) && EnoughSymbols(DimensionValue(g.element.dimension))
    requires forall i :: 0 <= i < |events| ==> Admissible(g.element.dimension, events[i])
    ensures Playing(version, r) && r.element.dimension == g.element.dimension
    decreases |events|
  {
    if |events| == 0 then g
    else Run(version, Step(version, g, events[0]), events[1..])
  }

  /**
   A restart click with enough draws for the page has enough for the board start-up
   leaves: as written that board has no attribute and needs no draws at all.
   */
  lemma AdmissibleAfterInit(version: Version, page: BoardElement, events: seq<Event>)
    requires forall i :: 0 <= i < |events| ==> Admissible(page.dimension, events[i])
    ensures forall i :: 0 <= i < |events| ==> Admissible(DimensionAfter(version, page), events[i])
  {
    forall i | 0 <= i < |events|
      ensures Admissible(DimensionAfter(version, page), events[i])
    {
      if version.AsWritten? {
        assert DrawsNeeded(DimensionValue(None)) == 0;
      }
    }
  }

  /**
   The script from start-up on, with the events the environment delivers: whatever the
   player and the timers do, the counter of face-up cards is at most two and equals the
   number of flipped unmatched cards, and every symbol on the board occurs exactly twice.
   The board's attribute is the one start-up left: none as written, the page's corrected.
   */
  function Play(version: Version, page: BoardElement, rand: seq<real>, events: seq<Event>): (r: Game)
    requires EnoughSymbols(DimensionValue(page.dimension))
    requires IsRandomStream(rand) && DrawsNeeded(DimensionValue(page.dimension)) <= |rand|
    requires IsEven(DimensionValue(page.dimension))
    requires forall i :: 0 <= i < |events| ==> Admissible(page.dimension, events[i])
    ensures r.state.flippedCards <= 2
    ensures r.state.flippedCards == |FaceUp(r.element.cards)|
    ensures InPairs(r.element.cards)
    ensures r.state.banner.Some? ==> AllMatched(r.element.cards) && r.pending == []
    ensures r.element.dimension == DimensionAfter(version, page)
    ensures Playing(version, r)
  {
    var g := Init(version, page, rand).value;
    InitKeepsInv(version, page, rand);
    AdmissibleAfterInit(version, page, events);
    Run(version, g, events)
  }

  /**
   As written, a restart after a win deals an empty board: start-up left the board without
   its attribute, so `generateGame` reads a dimension of 0.
   */
  lemma RestartAfterWinAsWritten(g: Game, rand: seq<real>)
    requires Playing(AsWritten, g) && g.state.banner.Some? && IsRandomStream(rand)
    ensures Restart(AsWritten, g, rand).element == BoardElement(None, [])
    ensures Restart(AsWritten, g, rand).state.banner.None?
  {
    MissingDimensionGivesEmptyBoard(g.element, rand);
  }

  /**
   Corrected, a restart after a win deals a full board of the page's dimension again, in
   pairs and face down.
   */
  lemma RestartAfterWinCorrected(g: Game, rand: seq<real>)
    requires Playing(Corrected, g) && g.state.banner.Some?
    requires EnoughSymbols(DimensionValue(g.element.dimension))
    requires IsRandomStream(rand) && DrawsNeeded(DimensionValue(g.element.dimension)) <= |rand|
    ensures var r := Restart(Corrected, g, rand);
            && r.element.dimension == g.element.dimension
            && |r.element.cards| == CardCount(DimensionValue(g.element.dimension))
            && InPairs(r.element.cards) && r.pending == []
  {
    RestartKeepsInv(Corrected, g, rand);
  }

  /** Clicking the same card again right away is ignored. */
  lemma SecondClickIgnored(g: Game, k: nat)
    requires k < |g.element.cards| && g.state.flippedCards == |FaceUp(g.element.cards)|
    ensures FlipCard(FlipCard(g, k), k) == FlipCard(g, k)
  {
  }

  /** A click while two cards wait to be turned back is ignored and is not counted. */
  lemma ClickDuringMismatchIgnored(g: Game, k: nat)
    requires Inv(g) && k < |g.element.cards| && g.pending == [FlipBack]
    ensures FlipCard(g, k) == g
  {
  }

  /** On the very first flip of a game, `startGame` wipes the flip just counted. */
  lemma FirstFlipNotCounted(g: Game, k: nat)
    requires k < |g.element.cards| && g.state.flippedCards == |FaceUp(g.element.cards)|
    requires !g.state.gameStarted && !Refused(g, k)
    ensures FlipCard(g, k).state.totalFlips == 0
    ensures FlipCard(g, k).state.gameStarted && FlipCard(g, k).state.timerActive
  {
  }

  /** A click that completes no pair only turns the clicked card up. */
  lemma LoneFlipTurnsUpOnly(g: Game, k: nat)
    requires k < |g.element.cards| && g.state.flippedCards == |FaceUp(g.element.cards)|
    requires !Refused(g, k) && !TwinShowing(g.element.cards, k)
    ensures FlipCard(g, k).element.cards == g.element.cards[k := g.element.cards[k].(flipped := true)]
  {
    var c := g.element.cards;
    var rc := FlipCard(g, k).element.cards;
    forall j | 0 <= j < |c| ensures rc[j] == c[k := c[k].(flipped := true)][j] {
      if j != k && IsFaceUp(c[j]) {
        assert c[j].(matched := false) == c[j];
      }
    }
  }

  /** A click that completes a pair marks it and the card already showing as matched. */
  lemma PairFlipMatchesBoth(g: Game, k: nat, p: nat)
    requires k < |g.element.cards| && p < |g.element.cards|
    requires g.state.flippedCards == |FaceUp(g.element.cards)| == 1
    requires !Refused(g, k) && IsFaceUp(g.element.cards[p])
    requires g.element.cards[p].symbol == g.element.cards[k].symbol
    ensures var c := g.element.cards;
            FlipCard(g, k).element.cards == c[k := c[k].(flipped := true, matched := true)][p := c[p].(matched := true)]
  {
    var c := g.element.cards;
    var rc := FlipCard(g, k).element.cards;
    assert TwinShowing(c, k);
    forall j | 0 <= j < |c|
      ensures rc[j] == c[k := c[k].(flipped := true, matched := true)][p := c[p].(matched := true)][j]
    {
      if j != k && j != p {
        SingleFaceUp(c, j);
        SingleFaceUp(c, p);
      }
    }
  }

  /** The two symbols of the 2 x 2 example board, each face down, face up and matched. */
  const PotatoDown := Card(Potato, false, false)
  const CherriesDown := Card(Cherries, false, false)
  const PotatoUp := Card(Potato, true, false)
  const CherriesUp := Card(Cherries, true, false)
  const PotatoMatched := Card(Potato, true, true)
  const CherriesMatched := Card(Cherries, true, true)

  /**
   A 2 x 2 board showing the four given cards. The attribute plays no part in the example:
   no click or callback reads it, so the example holds for a board without it as well.
   */
  function Board4(c0: Card, c1: Card, c2: Card, c3: Card): BoardElement {
    BoardElement(Some(2), [c0, c1, c2, c3])
  }

  /** The running state of the example after `flips` counted flips and `up` face-up cards. */
  function Running(up: nat, flips: nat): GameState {
    GameState(true, up, flips, 0, true, true, None)
  }

  /** The face-up count of a four-card board, position by position. */
  lemma {:induction false} FaceUpOfFour(c: seq<Card>)
    requires |c| == 4
    ensures |FaceUp(c)| == (if IsFaceUp(c[0]) then 1 else 0) + (if IsFaceUp(c[1]) then 1 else 0)
                         + (if IsFaceUp(c[2]) then 1 else 0) + (if IsFaceUp(c[3]) then 1 else 0)
  {
    assert FaceUpFrom(c, 4) == [];
    assert |FaceUpFrom(c, 3)| == (if IsFaceUp(c[3]) then 1 else 0);
    assert |FaceUpFrom(c, 2)| == (if IsFaceUp(c[2]) then 1 else 0) + |FaceUpFrom(c, 3)|;
    assert |FaceUpFrom(c, 1)| == (if IsFaceUp(c[1]) then 1 else 0) + |FaceUpFrom(c, 2)|;
  }

  /** The first click of the example: the flip is counted and at once wiped by `startGame`. */
  lemma ExampleFirstMiss()
    ensures |FaceUp(Board4(PotatoDown, CherriesDown, PotatoDown, CherriesDown).cards)| == 0
    ensures FlipCard(Game(Board4(PotatoDown, CherriesDown, PotatoDown, CherriesDown), InitialState, []), 0)
         == Game(Board4(PotatoUp, CherriesDown, PotatoDown, CherriesDown), Running(1, 0), [])
  {
    FaceUpOfFour(Board4(PotatoDown, CherriesDown, PotatoDown, CherriesDown).cards);
    FaceUpOfFour(Board4(PotatoUp, CherriesDown, PotatoDown, CherriesDown).cards);
  }

  /** The second click of the example misses, and `flipBackCards` is scheduled. */
  lemma ExampleSecondMiss()
    ensures |FaceUp(Board4(PotatoUp, CherriesDown, PotatoDown, CherriesDown).cards)| == 1
    ensures FlipCard(Game(Board4(PotatoUp, CherriesDown, PotatoDown, CherriesDown), Running(1, 0), []), 1)
         == Game(Board4(PotatoUp, CherriesUp, PotatoDown, CherriesDown), Running(2, 1), [FlipBack])
  {
    var c := Board4(PotatoUp, CherriesDown, PotatoDown, CherriesDown).cards;
    FaceUpOfFour(c);
    FaceUpOfFour(Board4(PotatoUp, CherriesUp, PotatoDown, CherriesDown).cards);
    assert IsFaceUp(c[0]);
    SingleFaceUp(c, 0);
    TwinIsTheFaceUpCard(c, 1);
    var g := Game(Board4(PotatoUp, CherriesDown, PotatoDown, CherriesDown), Running(1, 0), []);
    LoneFlipTurnsUpOnly(g, 1);
    assert c[1 := CherriesUp] == [PotatoUp, CherriesUp, PotatoDown, CherriesDown];
  }

  /** The example's mismatch is turned back by the callback. */
  lemma ExampleTurnBack()
    ensures RunTask(Game(Board4(PotatoUp, CherriesUp, PotatoDown, CherriesDown), Running(2, 1), [FlipBack]), 0)
         == Game(Board4(PotatoDown, CherriesDown, PotatoDown, CherriesDown), Running(0, 1), [])
  {
  }

  /** The second round: card 0 goes up again, alone. */
  lemma ExampleSecondRoundOpens()
    ensures |FaceUp(Board4(PotatoDown, CherriesDown, PotatoDown, CherriesDown).cards)| == 0
    ensures FlipCard(Game(Board4(PotatoDown, CherriesDown, PotatoDown, CherriesDown), Running(0, 1), []), 0)
         == Game(Board4(PotatoUp, CherriesDown, PotatoDown, CherriesDown), Running(1, 2), [])
  {
    FaceUpOfFour(Board4(PotatoDown, CherriesDown, PotatoDown, CherriesDown).cards);
    FaceUpOfFour(Board4(PotatoUp, CherriesDown, PotatoDown, CherriesDown).cards);
  }

  /** Card 2 completes the Potato pair. */
  lemma ExampleFirstPair()
    ensures |FaceUp(Board4(PotatoUp, CherriesDown, PotatoDown, CherriesDown).cards)| == 1
    ensures FlipCard(Game(Board4(PotatoUp, CherriesDown, PotatoDown, CherriesDown), Running(1, 2), []), 2)
         == Game(Board4(PotatoMatched, CherriesDown, PotatoMatched, CherriesDown), Running(0, 3), [])
  {
    var c := Board4(PotatoUp, CherriesDown, PotatoDown, CherriesDown).cards;
    var g := Game(Board4(PotatoUp, CherriesDown, PotatoDown, CherriesDown), Running(1, 2), []);
    var r := FlipCard(g, 2);
    assert |FaceUp(c)| == 1 by {
      FaceUpOfFour(c);
    }
    assert r.element.cards == [PotatoMatched, CherriesDown, PotatoMatched, CherriesDown] by {
      PairFlipMatchesBoth(g, 2, 0);
      assert c[2 := PotatoMatched][0 := PotatoMatched] == [PotatoMatched, CherriesDown, PotatoMatched, CherriesDown];
    }
    assert !AllMatched(r.element.cards) by {
      assert !r.element.cards[1].matched;
    }
    assert r.element == Board4(PotatoMatched, CherriesDown, PotatoMatched, CherriesDown);
    assert r.state == Running(0, 3);
    assert r.pending == [];
  }

  /** The third round: card 1 goes up alone. */
  lemma ExampleThirdRoundOpens()
    ensures |FaceUp(Board4(PotatoMatched, CherriesDown, PotatoMatched, CherriesDown).cards)| == 0
    ensures FlipCard(Game(Board4(PotatoMatched, CherriesDown, PotatoMatched, CherriesDown), Running(0, 3), []), 1)
         == Game(Board4(PotatoMatched, CherriesUp, PotatoMatched, CherriesDown), Running(1, 4), [])
  {
    var c := Board4(PotatoMatched, CherriesDown, PotatoMatched, CherriesDown).cards;
    FaceUpOfFour(c);
    NoTwinWhenNoneFaceUp(c, 1);
    LoneFlipTurnsUpOnly(Game(Board4(PotatoMatched, CherriesDown, PotatoMatched, CherriesDown), Running(0, 3), []), 1);
    assert c[1 := CherriesUp] == [PotatoMatched, CherriesUp, PotatoMatched, CherriesDown];
  }

  /** Card 3 completes the last pair, and the win announcement is scheduled. */
  lemma ExampleLastPair()
    ensures |FaceUp(Board4(PotatoMatched, CherriesUp, PotatoMatched, CherriesDown).cards)| == 1
    ensures FlipCard(Game(Board4(PotatoMatched, CherriesUp, PotatoMatched, CherriesDown), Running(1, 4), []), 3)
         == Game(Board4(PotatoMatched, CherriesMatched, PotatoMatched, CherriesMatched), Running(0, 5), [AnnounceWin])
  {
    var c := Board4(PotatoMatched, CherriesUp, PotatoMatched, CherriesDown).cards;
    FaceUpOfFour(c);
    var g := Game(Board4(PotatoMatched, CherriesUp, PotatoMatched, CherriesDown), Running(1, 4), []);
    PairFlipMatchesBoth(g, 3, 1);
    var r := FlipCard(g, 3);
    assert r.element.cards == [PotatoMatched, CherriesMatched, PotatoMatched, CherriesMatched] by {
      assert c[3 := CherriesMatched][1 := CherriesMatched] == [PotatoMatched, CherriesMatched, PotatoMatched, CherriesMatched];
    }
    assert AllMatched(r.element.cards);
    assert r.element == Board4(PotatoMatched, CherriesMatched, PotatoMatched, CherriesMatched);
    assert r.state == Running(0, 5);
    assert r.pending == [AnnounceWin];
  }

  /**
   The announcement of the example: six cards were turned up, but the win panel reports
   five moves, one less, because the first flip was wiped by `startGame`.
   */
  lemma ExampleWinReportsFive()
    ensures RunTask(Game(Board4(PotatoMatched, CherriesMatched, PotatoMatched, CherriesMatched), Running(0, 5), [AnnounceWin]), 0).state.banner
         == Some(Score(5, 0))
  {
  }
}
