/**
 Construction of the board by `generateGame`: the dimension is read from the board
 element's `data-dimension` attribute, checked for parity, and `d * d / 2` symbols are
 picked from the fixed list of twelve, duplicated and shuffled into the cards.
 */
module Board {
  import opened Wrappers
  import opened Shuffling

  /** The twelve fruit and vegetable emoji of the source, as abstract tokens. */
  datatype Symbol =
    | Potato | Cherries | Avocado | Corn | Carrot | Grapes
    | Watermelon | Banana | Mango | Pineapple | Strawberry | Kiwi

  /** The symbol list in the source's order. */
  const Emojis: seq<Symbol> :=
    [Potato, Cherries, Avocado, Corn, Carrot, Grapes,
     Watermelon, Banana, Mango, Pineapple, Strawberry, Kiwi]

  /** A card element: its symbol and its `flipped` and `matched` classes. */
  datatype Card = Card(symbol: Symbol, flipped: bool, matched: bool)

  /**
   The `.board` element: its `data-dimension` attribute, already read as a number
   (None when the attribute is absent), and its cards in document order.
   */
  datatype BoardElement = BoardElement(dimension: Option<int>, cards: seq<Card>)

  /** JavaScript arithmetic on the attribute: a missing attribute (null) behaves as 0. */
  function DimensionValue(attribute: Option<int>): int {
    match attribute
    case None => 0
    case Some(d) => d
  }

  /**
   The parity test `dimensions % 2 !== 0`. JavaScript's remainder truncates and Dafny's
   is Euclidean, but the two are zero for exactly the same integers.
   */
  predicate IsEven(d: int) {
    d % 2 == 0
  }

  /**
   `dimensions * dimensions`, the number of cards, by repeated addition of odd numbers
   (CardCountIsSquare shows it is the product), so that no contract multiplies variables.
   */
  function CardCount(d: int): nat
    decreases if d < 0 then -d else d
  {
    if d == 0 then 0
    else if d > 0 then CardCount(d - 1) + 2 * d - 1
    else CardCount(d + 1) - 2 * d - 1
  }

  /** The card count is the product of the dimension with itself. */
  lemma {:induction false} CardCountIsSquare(d: int)
    ensures CardCount(d) == d * d
    decreases if d < 0 then -d else d
  {
    if d > 0 {
      CardCountIsSquare(d - 1);
      assert (d - 1) * (d - 1) == d * d - 2 * d + 1;
    } else if d < 0 {
      CardCountIsSquare(d + 1);
      assert (d + 1) * (d + 1) == d * d + 2 * d + 1;
    }
  }

  /** `(dimensions * dimensions) / 2`: how many symbols are picked. */
  function PairsNeeded(d: int): nat {
    CardCount(d) / 2
  }

  /** The source never checks that there are enough symbols to pick from. */
  predicate EnoughSymbols(d: int) {
    IsEven(d) ==> PairsNeeded(d) <= |Emojis|
  }

  /** Draws from `Math.random` consumed by one generation: the picks, then the shuffle. */
  function DrawsNeeded(d: int): nat {
    PairsNeeded(d) + ShuffleRounds(2 * PairsNeeded(d))
  }

  /** The symbols of the cards, in document order. */
  function Symbols(cards: seq<Card>): (s: seq<Symbol>)
    ensures |s| == |cards|
    ensures forall j :: 0 <= j < |cards| ==> s[j] == cards[j].symbol
  {
    seq(|cards|, j requires 0 <= j < |cards| => cards[j].symbol)
  }

  /** How many cards carry symbol `s`. */
  function SymbolCount(cards: seq<Card>, s: Symbol): nat {
    multiset(Symbols(cards))[s]
  }

  /** Every card's symbol is carried by exactly two cards. */
  predicate InPairs(cards: seq<Card>) {
    forall j :: 0 <= j < |cards| ==> SymbolCount(cards, cards[j].symbol) == 2
  }

  /** A card as rendered from the template: face down and unmatched. */
  predicate FaceDown(c: Card) {
    !c.flipped && !c.matched
  }

  /** The twelve symbols are pairwise different. */
  lemma EmojisDistinct()
    ensures Distinct(Emojis)
  {
  }

  /** For an even dimension the card count `d * d` is twice the number of picks. */
  lemma EvenCardCount(d: int)
    requires IsEven(d)
    ensures CardCount(d) == 2 * PairsNeeded(d)
  {
    CardCountIsSquare(d);
    var m := d / 2;
    assert d == 2 * m;
    assert d * d == 2 * (2 * m * m);
  }

  /**
   Duplicating distinct picks and permuting the result leaves every symbol present
   exactly twice.
   */
  lemma DuplicatedPicksPair(picks: seq<Symbol>, items: seq<Symbol>)
    requires forall x :: multiset(picks)[x] <= 1
    requires multiset(items) == multiset(picks + picks)
    ensures forall k :: 0 <= k < |items| ==> multiset(items)[items[k]] == 2
  {
    forall k | 0 <= k < |items| ensures multiset(items)[items[k]] == 2 {
      var x := items[k];
      assert x in multiset(items);
      assert multiset(items)[x] == multiset(picks)[x] + multiset(picks)[x];
    }
  }

  /** Anything picked from the twelve symbols occurs at most once among the picks. */
  lemma PicksDistinct(picks: seq<Symbol>)
    requires multiset(picks) <= multiset(Emojis)
    ensures forall x :: multiset(picks)[x] <= 1
  {
    EmojisDistinct();
    forall x ensures multiset(picks)[x] <= 1 {
      DistinctOccursOnce(Emojis, x);
    }
  }

  /** The symbol list of a new game with `p` pairs: `shuffle([...picks, ...picks])`. */
  function DealItems(p: nat, rand: seq<real>): (items: seq<Symbol>)
    requires p <= |Emojis|
    requires IsRandomStream(rand) && p + ShuffleRounds(2 * p) <= |rand|
    ensures |items| == 2 * p
    ensures forall k :: 0 <= k < |items| ==> multiset(items)[items[k]] == 2
  {
    var picks := PickRandom(Emojis, p, rand);
    assert IsRandomStream(rand[p..]);
    assert |picks + picks| == 2 * p;
    var items := Shuffle(picks + picks, rand[p..]);
    PicksDistinct(picks);
    DuplicatedPicksPair(picks, items);
    items
  }

  /** The card template applied to every item. */
  function RenderCards(items: seq<Symbol>): (cards: seq<Card>)
    ensures Symbols(cards) == items
    ensures forall j :: 0 <= j < |cards| ==> FaceDown(cards[j])
  {
    seq(|items|, j requires 0 <= j < |items| => Card(items[j], false, false))
  }

  /**
   `generateGame`: throws unless the dimension is even, otherwise replaces the board by
   `d * d` face-down cards in which every symbol occurs exactly twice. The replacement
   keeps the `data-dimension` attribute (see GenerateGameAsWritten for the source, whose
   replacement element carries none).
   */
  function GenerateGame(element: BoardElement, rand: seq<real>): (r: Result<BoardElement>)
    requires EnoughSymbols(DimensionValue(element.dimension))
    requires IsRandomStream(rand) && DrawsNeeded(DimensionValue(element.dimension)) <= |rand|
    ensures r.Fail? <==> !IsEven(DimensionValue(element.dimension))
    ensures r.Ok? ==> r.value.dimension == element.dimension
    ensures r.Ok? ==> var d := DimensionValue(element.dimension);
                      |r.value.cards| == CardCount(d) && InPairs(r.value.cards)
    ensures r.Ok? ==> forall j :: 0 <= j < |r.value.cards| ==> FaceDown(r.value.cards[j])
  {
    var d := DimensionValue(element.dimension);
    if !IsEven(d) then Fail("Dimension must be even.")
    else
      EvenCardCount(d);
      Ok(BoardElement(element.dimension, RenderCards(DealItems(PairsNeeded(d), rand))))
  }

  /**
   `generateGame` as written: the new `div` that replaces the board is never given a
   `data-dimension` attribute.
   */
  function GenerateGameAsWritten(element: BoardElement, rand: seq<real>): (r: Result<BoardElement>)
    requires EnoughSymbols(DimensionValue(element.dimension))
    requires IsRandomStream(rand) && DrawsNeeded(DimensionValue(element.dimension)) <= |rand|
    ensures r.Fail? <==> !IsEven(DimensionValue(element.dimension))
    ensures r.Ok? ==> r.value.dimension == None
    ensures r.Ok? ==> var d := DimensionValue(element.dimension);
                      |r.value.cards| == CardCount(d) && InPairs(r.value.cards)
    ensures r.Ok? ==> forall j :: 0 <= j < |r.value.cards| ==> FaceDown(r.value.cards[j])
  {
    var d := DimensionValue(element.dimension);
    if !IsEven(d) then Fail("Dimension must be even.")
    else
      EvenCardCount(d);
      Ok(BoardElement(None, RenderCards(DealItems(PairsNeeded(d), rand))))
  }

  /** Which `generateGame` a run uses: the code as written, or the corrected one. */
  datatype Version = AsWritten | Corrected

  /** The new board's attribute: none as written, the old element's once corrected. */
  function DimensionAfter(version: Version, element: BoardElement): Option<int> {
    if version.AsWritten? then None else element.dimension
  }

  /**
   `generateGame` in the given version. Both fail exactly on an odd dimension and deal a
   face-down board of `d * d` cards in pairs; they differ only in the attribute they leave.
   */
  function Generate(version: Version, element: BoardElement, rand: seq<real>): (r: Result<BoardElement>)
    requires EnoughSymbols(DimensionValue(element.dimension))
    requires IsRandomStream(rand) && DrawsNeeded(DimensionValue(element.dimension)) <= |rand|
    ensures r.Fail? <==> !IsEven(DimensionValue(element.dimension))
    ensures r.Ok? ==> r.value.dimension == DimensionAfter(version, element)
    ensures r.Ok? ==> var d := DimensionValue(element.dimension);
                      |r.value.cards| == CardCount(d) && InPairs(r.value.cards)
    ensures r.Ok? ==> forall j :: 0 <= j < |r.value.cards| ==> FaceDown(r.value.cards[j])
  {
    match version
    case AsWritten => GenerateGameAsWritten(element, rand)
    case Corrected => GenerateGame(element, rand)
  }

  /**
   Generation from an element without a `data-dimension` attribute reads it as 0 and
   yields an empty board.
   */
  lemma MissingDimensionGivesEmptyBoard(element: BoardElement, rand: seq<real>)
    requires element.dimension == None && IsRandomStream(rand)
    ensures GenerateGameAsWritten(element, rand) == Ok(BoardElement(None, []))
  {
    assert DimensionValue(element.dimension) == 0;
    assert PairsNeeded(0) == 0;
  }

  /**
   The source's first generation on a 4 x 4 page deals 16 cards but leaves an element
   without the attribute, which is what its restart generates from next.
   */
  lemma FirstGenerationDropsDimension(first: seq<real>)
    requires IsRandomStream(first) && DrawsNeeded(4) <= |first|
    ensures GenerateGameAsWritten(BoardElement(Some(4), []), first).Ok?
    ensures |GenerateGameAsWritten(BoardElement(Some(4), []), first).value.cards| == 16
    ensures GenerateGameAsWritten(BoardElement(Some(4), []), first).value.dimension == None
  {
    var page := BoardElement(Some(4), []);
    assert DimensionValue(page.dimension) == 4;
    var r := GenerateGameAsWritten(page, first);
    CardCountIsSquare(4);
    assert |r.value.cards| == CardCount(4);
  }

  /** With the attribute kept, regeneration yields a full board of the same dimension again. */
  lemma RegenerationKeepsDimension(d: int, first: seq<real>, second: seq<real>)
    requires IsEven(d) && PairsNeeded(d) <= |Emojis|
    requires IsRandomStream(first) && DrawsNeeded(d) <= |first|
    requires IsRandomStream(second) && DrawsNeeded(d) <= |second|
    ensures var g1 := GenerateGame(BoardElement(Some(d), []), first);
            g1.Ok? &&
            var g2 := GenerateGame(g1.value, second);
            g2.Ok? && |g2.value.cards| == CardCount(d) && InPairs(g2.value.cards)
  {
  }
}
