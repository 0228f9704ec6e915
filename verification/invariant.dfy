/**
 The invariant the state machine keeps: the `flippedCards` counter equals the number of
 face-up unmatched cards and never exceeds two, matches are genuine pairs, and the pending
 callbacks are consistent with the board. Every transition preserves it.
 */
module Invariant {
  import opened Wrappers
  import opened Shuffling
  import opened Board
  import opened Game

  /** A matched card stays face up. */
  predicate MatchedStayUp(cards: seq<Card>) {
    forall j :: 0 <= j < |cards| && cards[j].matched ==> cards[j].flipped
  }

  /** Another matched card carries the symbol of card `j`. */
  predicate HasPartner(cards: seq<Card>, j: nat)
    requires j < |cards|
  {
    exists i :: 0 <= i < |cards| && i != j && cards[i].matched && cards[i].symbol == cards[j].symbol
  }

  /** Every matched card has a matched partner with the same symbol. */
  predicate MatchesPaired(cards: seq<Card>) {
    forall j :: 0 <= j < |cards| && cards[j].matched ==> HasPartner(cards, j)
  }

  /** Two face-up unmatched cards never share a symbol: a pair is matched at once. */
  predicate FaceUpDiffer(cards: seq<Card>) {
    forall i, j :: 0 <= i < j < |cards| && IsFaceUp(cards[i]) && IsFaceUp(cards[j]) ==>
      cards[i].symbol != cards[j].symbol
  }

  /** What the invariant says of the cards alone. */
  predicate CardsInv(c: seq<Card>) {
    MatchedStayUp(c) && MatchesPaired(c) && FaceUpDiffer(c)
  }

  /**
   What the invariant says of the callbacks: at most one is pending, `flipBackCards`
   exactly while two cards are face up, the win announcement only for a won board, and
   the win panel only over a won board with the clock stopped.
   */
  predicate ScheduleInv(g: Game) {
    var c := g.element.cards;
    var st := g.state;
    && (g.pending == [] || g.pending == [FlipBack] || g.pending == [AnnounceWin])
    && (g.pending == [FlipBack] <==> st.flippedCards == 2)
    && (g.pending == [AnnounceWin] ==> AllMatched(c) && st.banner.None?)
    && (st.banner.Some? ==> AllMatched(c) && g.pending == [] && !st.timerActive)
    && (st.gameStarted || g.pending == [AnnounceWin] || st.banner.Some? ==> st.startDisabled)
    && (st.timerActive ==> st.gameStarted)
  }

  /** The invariant of every page state the game can reach. */
  predicate Inv(g: Game) {
    && g.state.flippedCards == |FaceUp(g.element.cards)|
    && g.state.flippedCards <= 2
    && CardsInv(g.element.cards)
    && ScheduleInv(g)
  }

  /** A freshly generated game satisfies the invariant. */
  lemma InitKeepsInv(version: Version, page: BoardElement, rand: seq<real>)
    requires EnoughSymbols(DimensionValue(page.dimension))
    requires IsRandomStream(rand) && DrawsNeeded(DimensionValue(page.dimension)) <= |rand|
    requires IsEven(DimensionValue(page.dimension))
    ensures Inv(Init(version, page, rand).value)
  {
    var g := Init(version, page, rand).value;
    NoneFaceUp(g.element.cards, 0);
  }

  /** With every card matched, no card is face up. */
  lemma AllMatchedNoneFaceUp(cards: seq<Card>)
    requires AllMatched(cards)
    ensures |FaceUp(cards)| == 0
  {
    NoneFaceUp(cards, 0);
  }

  /** How an accepted click on card `k` changes the cards, as FlipCard states it. */
  predicate FlipChanges(c: seq<Card>, rc: seq<Card>, k: nat, twin: bool)
    requires k < |c|
  {
    && |rc| == |c|
    && rc[k] == c[k].(flipped := true, matched := twin)
    && forall j :: 0 <= j < |c| && j != k ==>
         rc[j] == if IsFaceUp(c[j]) then c[j].(matched := twin) else c[j]
  }

  /** With at most one card face up, a face-up card `p` is the only one. */
  lemma OnlyFaceUp(c: seq<Card>, p: nat, j: nat)
    requires |FaceUp(c)| <= 1 && p < |c| && j < |c| && j != p
    requires IsFaceUp(c[p])
    ensures !IsFaceUp(c[j])
  {
    var f := FaceUp(c);
    assert p in f;
    assert IsFaceUp(c[j]) ==> j in f;
  }

  /** Every matched card of `c` is unchanged in `rc`. */
  predicate MatchedUntouched(c: seq<Card>, rc: seq<Card>) {
    |rc| == |c| && forall i :: 0 <= i < |c| && c[i].matched ==> rc[i] == c[i]
  }

  /** A partner survives any change that leaves the matched cards alone. */
  lemma PartnerSurvives(c: seq<Card>, rc: seq<Card>, j: nat)
    requires MatchedUntouched(c, rc) && j < |c| && HasPartner(c, j)
    requires rc[j].symbol == c[j].symbol
    ensures HasPartner(rc, j)
  {
    var i :| 0 <= i < |c| && i != j && c[i].matched && c[i].symbol == c[j].symbol;
    assert rc[i] == c[i];
  }

  /** A completed pair: both cards of it have their partner, and older matches keep theirs. */
  lemma TwinMatchesPaired(c: seq<Card>, rc: seq<Card>, k: nat)
    requires k < |c| && !c[k].flipped && !c[k].matched
    requires |FaceUp(c)| <= 1 && MatchesPaired(c)
    requires TwinShowing(c, k) && FlipChanges(c, rc, k, true)
    ensures MatchesPaired(rc)
  {
    var p :| 0 <= p < |c| && IsFaceUp(c[p]) && c[p].symbol == c[k].symbol;
    assert rc[p].matched && rc[k].matched;
    assert MatchedUntouched(c, rc);
    forall j | 0 <= j < |rc| && rc[j].matched
      ensures HasPartner(rc, j)
    {
      if j == k {
        assert rc[p].symbol == rc[j].symbol;
      } else if j == p {
        assert rc[k].symbol == rc[j].symbol;
      } else {
        OnlyFaceUp(c, p, j);
        PartnerSurvives(c, rc, j);
      }
    }
  }

  /** A completed pair leaves no card face up. */
  lemma TwinNoneFaceUp(c: seq<Card>, rc: seq<Card>, k: nat)
    requires k < |c| && !c[k].flipped && !c[k].matched
    requires |FaceUp(c)| <= 1
    requires TwinShowing(c, k) && FlipChanges(c, rc, k, true)
    ensures forall j :: 0 <= j < |rc| ==> !IsFaceUp(rc[j])
    ensures FaceUpDiffer(rc)
  {
    var p :| 0 <= p < |c| && IsFaceUp(c[p]) && c[p].symbol == c[k].symbol;
    forall j | 0 <= j < |rc| ensures !IsFaceUp(rc[j]) {
      if j != k && j != p {
        OnlyFaceUp(c, p, j);
      }
    }
  }

  /** Matched cards of a completed pair are face up, as are the older ones. */
  lemma TwinStayUp(c: seq<Card>, rc: seq<Card>, k: nat)
    requires k < |c| && MatchedStayUp(c)
    requires FlipChanges(c, rc, k, true)
    ensures MatchedStayUp(rc)
  {
  }

  /** A click that completes a pair keeps the card-level invariants. */
  lemma FlipTwinKeepsCards(c: seq<Card>, rc: seq<Card>, k: nat)
    requires k < |c| && !c[k].flipped && !c[k].matched
    requires |FaceUp(c)| <= 1 && MatchedStayUp(c) && MatchesPaired(c)
    requires TwinShowing(c, k) && FlipChanges(c, rc, k, true)
    ensures MatchedStayUp(rc) && MatchesPaired(rc) && FaceUpDiffer(rc)
  {
    TwinMatchesPaired(c, rc, k);
    TwinNoneFaceUp(c, rc, k);
    TwinStayUp(c, rc, k);
  }

  /** A card turned up without a twin: every match keeps its partner. */
  lemma LoneMatchesPaired(c: seq<Card>, rc: seq<Card>, k: nat)
    requires k < |c| && !c[k].flipped && !c[k].matched
    requires MatchesPaired(c)
    requires FlipChanges(c, rc, k, false)
    ensures MatchesPaired(rc)
  {
    assert MatchedUntouched(c, rc);
    forall j | 0 <= j < |rc| && rc[j].matched
      ensures HasPartner(rc, j)
    {
      assert j != k && rc[j] == c[j];
      PartnerSurvives(c, rc, j);
    }
  }

  /** A card turned up without a twin differs in symbol from every other face-up card. */
  lemma LoneFaceUpDiffer(c: seq<Card>, rc: seq<Card>, k: nat)
    requires k < |c| && !c[k].flipped && !c[k].matched
    requires FaceUpDiffer(c)
    requires !TwinShowing(c, k) && FlipChanges(c, rc, k, false)
    ensures FaceUpDiffer(rc)
  {
    forall i, j | 0 <= i < j < |rc| && IsFaceUp(rc[i]) && IsFaceUp(rc[j])
      ensures rc[i].symbol != rc[j].symbol
    {
      if i == k {
        assert IsFaceUp(c[j]);
      } else if j == k {
        assert IsFaceUp(c[i]);
      }
    }
  }

  /** A card turned up without a twin leaves it unmatched, so the game is not won. */
  lemma LoneNotWon(c: seq<Card>, rc: seq<Card>, k: nat)
    requires k < |c| && !c[k].flipped && !c[k].matched
    requires MatchedStayUp(c)
    requires FlipChanges(c, rc, k, false)
    ensures MatchedStayUp(rc) && !AllMatched(rc)
  {
    assert !rc[k].matched;
  }

  /** A click that leaves the card unmatched keeps the card-level invariants. */
  lemma FlipLoneKeepsCards(c: seq<Card>, rc: seq<Card>, k: nat)
    requires k < |c| && !c[k].flipped && !c[k].matched
    requires MatchedStayUp(c) && MatchesPaired(c) && FaceUpDiffer(c)
    requires !TwinShowing(c, k) && FlipChanges(c, rc, k, false)
    ensures MatchedStayUp(rc) && MatchesPaired(rc) && FaceUpDiffer(rc) && !AllMatched(rc)
  {
    LoneMatchesPaired(c, rc, k);
    LoneFaceUpDiffer(c, rc, k);
    LoneNotWon(c, rc, k);
  }

  /** An accepted click keeps the card-level invariants, with or without a completed pair. */
  lemma FlipCardKeepsCards(g: Game, k: nat)
    requires k < |g.element.cards| && g.state.flippedCards == |FaceUp(g.element.cards)| <= 1
    requires CardsInv(g.element.cards) && !Refused(g, k)
    ensures CardsInv(FlipCard(g, k).element.cards)
    ensures !TwinShowing(g.element.cards, k) ==> !AllMatched(FlipCard(g, k).element.cards)
  {
    var c := g.element.cards;
    var rc := FlipCard(g, k).element.cards;
    var twin := TwinShowing(c, k);
    assert FlipChanges(c, rc, k, twin);
    if twin {
      FlipTwinKeepsCards(c, rc, k);
    } else {
      FlipLoneKeepsCards(c, rc, k);
    }
  }

  /** An accepted click keeps the callbacks consistent with the board. */
  lemma FlipCardKeepsSchedule(g: Game, k: nat)
    requires k < |g.element.cards| && g.state.flippedCards == |FaceUp(g.element.cards)| <= 1
    requires !Refused(g, k) && ScheduleInv(g) && !AllMatched(g.element.cards)
    requires !TwinShowing(g.element.cards, k) ==> !AllMatched(FlipCard(g, k).element.cards)
    ensures ScheduleInv(FlipCard(g, k))
  {
    assert g.pending == [];
    var r := FlipCard(g, k);
    var twin := TwinShowing(g.element.cards, k);
    if twin {
      assert r.state.flippedCards == 0;
      assert r.pending == [] || r.pending == [AnnounceWin];
    } else if g.state.flippedCards == 1 {
      assert r.state.flippedCards == 2;
      assert r.pending == [FlipBack];
    } else {
      assert r.state.flippedCards == 1;
      assert r.pending == [];
    }
  }

  /** An accepted click on a game satisfying the invariant. */
  lemma FlipCardKeepsInv(g: Game, k: nat)
    requires Inv(g) && k < |g.element.cards|
    ensures Inv(FlipCard(g, k))
  {
    if !Refused(g, k) {
      var c := g.element.cards;
      assert !AllMatched(c) by {
        assert !c[k].matched;
      }
      FlipCardKeepsCards(g, k);
      FlipCardKeepsSchedule(g, k);
    }
  }

  /** Running either pending callback on a game satisfying the invariant. */
  lemma RunTaskKeepsInv(g: Game, k: nat)
    requires Inv(g) && k < |g.pending|
    ensures Inv(RunTask(g, k))
  {
    var r := RunTask(g, k);
    assert k == 0;
    assert g.pending[..k] + g.pending[k + 1..] == [];
    if g.pending[k] == FlipBack {
      var c := g.element.cards;
      var rc := r.element.cards;
      forall j | 0 <= j < |rc| && rc[j].matched
        ensures HasPartner(rc, j)
      {
        assert c[j].matched && HasPartner(c, j);
        var i :| 0 <= i < |c| && i != j && c[i].matched && c[i].symbol == c[j].symbol;
        assert rc[i] == c[i];
      }
    }
  }

  /** An interval tick changes only the clock. */
  lemma TickKeepsInv(g: Game)
    requires Inv(g)
    ensures Inv(Tick(g))
  {
  }

  /** The start button changes only the state record. */
  lemma StartPressedKeepsInv(g: Game)
    requires Inv(g)
    ensures Inv(StartPressed(g))
  {
  }

  /** After a win, a board of face-down cards under the hidden panel satisfies the invariant. */
  lemma FreshBoardInv(g: Game, r: Game)
    requires Inv(g) && g.state.banner.Some?
    requires r.state == g.state.(banner := None, gameStarted := false) && r.pending == g.pending
    requires forall j :: 0 <= j < |r.element.cards| ==> FaceDown(r.element.cards[j])
    ensures Inv(r)
  {
    AllMatchedNoneFaceUp(g.element.cards);
    NoneFaceUp(r.element.cards, 0);
    assert r.pending == [];
  }

  /** After a win, the won board under the hidden panel satisfies the invariant. */
  lemma KeptBoardInv(g: Game, r: Game)
    requires Inv(g) && g.state.banner.Some?
    requires r.state == g.state.(banner := None, gameStarted := false) && r.pending == g.pending
    requires r.element == g.element
    ensures Inv(r)
  {
    AllMatchedNoneFaceUp(g.element.cards);
    assert r.pending == [];
  }

  /**
   A restart from the win panel: the new board is face down with nothing pending, so no
   callback of the finished game is left to disturb it.
   */
  lemma RestartKeepsInv(version: Version, g: Game, rand: seq<real>)
    requires Inv(g)
    requires EnoughSymbols(DimensionValue(g.element.dimension))
    requires IsRandomStream(rand) && DrawsNeeded(DimensionValue(g.element.dimension)) <= |rand|
    ensures Inv(Restart(version, g, rand))
    ensures g.state.banner.Some? ==> Restart(version, g, rand).pending == []
  {
    var r := Restart(version, g, rand);
    if g.state.banner.Some? {
      if IsEven(DimensionValue(g.element.dimension)) {
        FreshBoardInv(g, r);
      } else {
        KeptBoardInv(g, r);
      }
    }
  }
}
