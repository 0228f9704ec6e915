# Memory card game: a Dafny model of its game script

The game is a browser memory game. A square board of `d * d` cards hides `d * d / 2` fruit
and vegetable symbols, each on exactly two cards. The player turns up two cards at a time.
Two cards with the same symbol stay up as a matched pair. Two different cards are turned
back after 800 ms. When every card is matched, a win panel appears after 700 ms. It reports
the number of moves and the seconds elapsed, and offers a restart.

All of the logic is in `assets/game.js`. This project models it in six modules:

- `Wrappers`: the `Option` and `Result` types.
- `Shuffling`: `shuffle` (Fisher-Yates over a copy) and `pickRandom` (draws without
  replacement by splicing out of a copy). `Math.random` is an oracle, a sequence of reals
  each in [0, 1), and `Math.floor(Math.random() * n)` is `ScaledIndex`. Both functions are
  then deterministic and are proved to return a permutation and a sub-bag of their input.
  Sequences are values, so "the input is not modified" holds by construction.
- `Board`: the twelve symbols, the card and board-element records, and `generateGame`. The
  board element carries its `data-dimension` attribute as `Option<int>`; a missing
  attribute reads as 0, as JavaScript's arithmetic on `null` does.
- `Game`: the state record and the transitions.
  - The state is `gameStarted`, `flippedCards`, `totalFlips` and `totalTime`, plus three
    pieces of page state the logic reads back: whether an interval is live, the start
    button's `disabled` class, and the win panel.
  - Cards are indexed by position instead of by DOM identity.
  - The two `setTimeout` callbacks are pending tasks that the environment runs later, in
    any order. Time itself is not modelled.
- `Invariant`: the invariant of every reachable page state, and one preservation lemma per
  transition. The invariant says:
  - `flippedCards` equals the number of flipped-but-unmatched cards, and is at most 2;
  - matched cards stay face up and come in same-symbol pairs;
  - a pending `flipBackCards` exists exactly while two cards are face up;
  - the win panel only shows over a fully matched board with the clock stopped.
- `Session`: every event the browser can deliver (card click, due callback, interval tick,
  start button, restart button) as one `Step`, and any sequence of them from start-up.
  It also holds a complete 2 x 2 example game.

As in the source, the very first flip of a game is counted and then wiped. `flipCard`
increments `totalFlips` and then calls `startGame`, which resets it to 0. The move count on
the win panel is therefore one less than the number of cards turned up, unless the player
pressed the start button first.

The start button's `disabled` class is added by `startGame` and never removed anywhere in
the script. The model keeps it that way, so after the first game the button is
permanently inert.

`generateGame` replaces the board with a new element that never gets the page's
`data-dimension` attribute (see Findings). The model has both versions, selected by
`Board.Version`: `AsWritten` is the script as it is, and `Corrected` keeps the attribute.
Start-up, restart and the whole session take the version as a parameter and are proved for
both. As written, every restart after the first win deals an empty board.

The source has two gaps that the model carries as preconditions rather than error cases:

- Only the parity of the dimension is checked, so 0 and negative even values are accepted.
- Nothing checks that `d * d / 2` is at most 12 (`EnoughSymbols`).

## Model

| member | source | states |
|---|---|---|
| Shuffling.ScaledIndex | assets/game.js:24 | `Math.floor(u * n)` of a draw `u` in [0, 1) is an index below `n` |
| Shuffling.ScaledIndexIsFloor | assets/game.js:24 | the index is the floor of `u * n`: at most `u * n` and more than `u * n - 1` |
| Shuffling.Swap | assets/game.js:25 | the destructuring swap exchanges the two positions, keeps every other one, and keeps the multiset |
| Shuffling.ShuffleFrom | assets/game.js:23-26 | the loop from index `i` down keeps the length and multiset, and never touches positions above `i` |
| Shuffling.Shuffle | assets/game.js:21-28 | `shuffle` returns a permutation of its input: same length, same multiset |
| Shuffling.ShuffleFromTop | assets/game.js:23-25 | the first round puts the element at the drawn index `j` into position `i` for good |
| Shuffling.ShuffleLastIsFirstDraw | assets/game.js:21-28 | the element that ends last is the one selected by the first draw |
| Shuffling.DrawForIndex | assets/game.js:24 | the draw `t / n` is a valid `Math.random` value and scales back to index `t` |
| Shuffling.ShuffleCanPlaceAnyLast | assets/game.js:21-28 | for every element there is a valid draw sequence that shuffles it into the last position |
| Shuffling.PickFrom | assets/game.js:31-36 | the loop returns exactly `items` picks, and the picks together with the remaining clone make up the input's multiset, so no position is drawn twice |
| Shuffling.Splice | assets/game.js:35 | `splice(random, 1)` removes exactly the element at that position |
| Shuffling.PickRandom | assets/game.js:30-38 | `pickRandom` returns `items` elements, forming a sub-multiset of the pool |
| Shuffling.DistinctOccursOnce | assets/game.js:45 | in a list without repetitions every value occurs at most once |
| Board.EmojisDistinct | assets/game.js:45 | the twelve symbols are pairwise different |
| Board.CardCountIsSquare | assets/game.js:46 | the card count `CardCount(d)`, computed by adding odd numbers, is `d * d` |
| Board.EvenCardCount | assets/game.js:43-46 | for an even dimension, `d * d` is exactly twice the number of picks |
| Board.DuplicatedPicksPair | assets/game.js:47 | permuting `[...picks, ...picks]` of distinct picks leaves every symbol exactly twice |
| Board.PicksDistinct | assets/game.js:45-46 | picks from the twelve symbols never repeat a symbol |
| Board.DealItems | assets/game.js:45-47 | the item list has `2 * p` entries and every entry occurs exactly twice |
| Board.RenderCards | assets/game.js:49-54 | the card template yields one face-down, unmatched card per item, with that item's symbol |
| Board.GenerateGame | assets/game.js:41-63 | fails exactly for an odd dimension, 0 included among the accepted ones; otherwise yields `d * d` face-down cards in pairs and keeps the dimension (corrected, see Findings) |
| Board.GenerateGameAsWritten | assets/game.js:41-62 | the source's `generateGame`: fails exactly for an odd dimension, otherwise yields `d * d` face-down cards in pairs on a replacement element without the `data-dimension` attribute |
| Board.Generate | assets/game.js:41-63 | in either version: fails exactly for an odd dimension, otherwise deals `d * d` face-down cards in pairs; the attribute is dropped as written and kept once corrected |
| Board.MissingDimensionGivesEmptyBoard | assets/game.js:42-46 | generating from an element without the attribute yields an empty board |
| Board.FirstGenerationDropsDimension | assets/game.js:56-62 | on a 4 x 4 page the first generation deals 16 cards but leaves an element without the attribute |
| Board.RegenerationKeepsDimension | assets/game.js:41-63 | with the attribute kept, a second generation again yields a full board in pairs |
| Game.FaceUpFrom | assets/game.js:101 | the selector `.flipped:not(.matched)` returns exactly the face-up unmatched positions, in document order |
| Game.StartGame | assets/game.js:66-79 | `startGame` marks the game started, disables the start button, sets the clock and the move count to 0 and makes an interval live; the face-up counter and the win panel keep their values |
| Game.StartGameIdempotent | assets/game.js:66-79 | a second `startGame` right after one leaves the state unchanged, with the clock at 0 and an interval live |
| Game.FaceUpFromUpdate | assets/game.js:92 | changing one card changes the face-up count by that card's own change |
| Game.NoneFaceUp | assets/game.js:83-84 | with no face-up card the selector matches nothing |
| Game.SingleFaceUp | assets/game.js:101 | with one face-up card, it is the only position returned |
| Game.TurnUp | assets/game.js:92 | adding `flipped` to a face-down card raises the face-up count by one |
| Game.MarkMatched | assets/game.js:103 | every face-up card becomes matched, the others are unchanged, and none is left face up |
| Game.TurnDownUnmatched | assets/game.js:83 | every unmatched card loses `flipped`, matched ones are unchanged |
| Game.PairAfterTurnUp | assets/game.js:100-101 | after the second card goes up, the selector returns it and the card already showing |
| Game.TwinIsTheFaceUpCard | assets/game.js:102 | the innerText comparison succeeds exactly when the card already showing has the clicked card's symbol |
| Game.NoTwinWhenNoneFaceUp | assets/game.js:100 | with no card showing, no comparison happens |
| Game.Resolve | assets/game.js:99-132 | after the pair check and the win check, the counter again agrees with the board |
| Game.FlipCard | assets/game.js:88-133 | the early returns change nothing. Otherwise: only the clicked card goes up; a completed pair is matched and the counter goes to 0; a mismatch schedules `flipBackCards`; `totalFlips` is wiped on the first flip; a fully matched board schedules the win |
| Game.FlipFirstEffect | assets/game.js:92-97 | an accepted click with nothing showing turns only that card up, compares nothing, and cannot win |
| Game.FlipSecondEffect | assets/game.js:100-107 | an accepted second click matches both cards exactly when the symbols agree, and otherwise schedules the turn-back |
| Game.FlipCardEffect | assets/game.js:88-133 | the case split behind FlipCard's contract |
| Game.FlipBackCards | assets/game.js:82-85 | unmatched cards go face down, matched cards are untouched, symbols stay, and the counter is 0, in agreement with the board |
| Game.Announce | assets/game.js:112-122 | the win callback stops the clock and shows the current moves and seconds, changing nothing else |
| Game.RunTask | assets/game.js:82-122 | the due callback leaves the pending list. A turn-back leaves no card face up, matched cards as they were, every symbol in place, and the counter at 0. The win callback stops the clock and shows the current moves and seconds, and leaves the board alone |
| Game.Tick | assets/game.js:75-78 | a live interval adds one second; a cleared one changes nothing |
| Game.StartPressed | assets/game.js:141-143 | a disabled start button does nothing. Otherwise the press starts the game, disables the button, and sets the clock and move count to 0 with an interval live; the board, the counter, the panel and the pending callbacks are untouched |
| Game.StartButtonInertAfterPress | assets/game.js:141-143 | after one press the button is disabled, and pressing it again changes nothing |
| Game.Restart | assets/game.js:125-130 | the restart hides the panel and clears `gameStarted`, nothing else in the state. An even dimension yields a fresh face-down board of `d * d` cards in pairs, without the attribute as written and with it once corrected; a throw keeps the old board |
| Game.Init | assets/game.js:147-148 | start-up fails exactly for an odd dimension, and otherwise yields the declared state, no callbacks, and `d * d` face-down cards in pairs; as written, the board it leaves has no attribute |
| Invariant.InitKeepsInv | assets/game.js:12-18 | the state right after start-up satisfies the invariant |
| Invariant.AllMatchedNoneFaceUp | assets/game.js:111 | a won board has no face-up card |
| Invariant.OnlyFaceUp | assets/game.js:90 | with at most one face-up card, any other card is not face up |
| Invariant.PartnerSurvives | assets/game.js:103 | a matched partner survives any change that leaves matched cards alone |
| Invariant.TwinMatchesPaired | assets/game.js:102-103 | a completed pair gives both cards a matched partner, and older pairs keep theirs |
| Invariant.TwinNoneFaceUp | assets/game.js:103-104 | a completed pair leaves no card face up |
| Invariant.TwinStayUp | assets/game.js:92-103 | a completed pair keeps matched cards face up |
| Invariant.FlipTwinKeepsCards | assets/game.js:100-104 | a click completing a pair keeps the card-level invariant |
| Invariant.LoneMatchesPaired | assets/game.js:92 | a click that matches nothing keeps the pairing of the matched cards |
| Invariant.LoneFaceUpDiffer | assets/game.js:100-106 | after a click that matches nothing, no two face-up cards share a symbol |
| Invariant.LoneNotWon | assets/game.js:111 | a click that matches nothing leaves the clicked card unmatched, so no win is scheduled |
| Invariant.FlipLoneKeepsCards | assets/game.js:92-106 | a click completing no pair keeps the card-level invariant |
| Invariant.FlipCardKeepsCards | assets/game.js:88-108 | an accepted click keeps the card-level invariant |
| Invariant.FlipCardKeepsSchedule | assets/game.js:100-112 | an accepted click keeps the pending callbacks consistent: a turn-back exactly while two cards show, a win only over a won board |
| Invariant.FlipCardKeepsInv | assets/game.js:88-133 | `flipCard` preserves the invariant: the counter equals the number of face-up unmatched cards and is at most 2 |
| Invariant.RunTaskKeepsInv | assets/game.js:82-85 | running `flipBackCards` or the win callback preserves the invariant |
| Invariant.TickKeepsInv | assets/game.js:75-78 | an interval tick preserves the invariant |
| Invariant.StartPressedKeepsInv | assets/game.js:141-143 | the start button preserves the invariant |
| Invariant.FreshBoardInv | assets/game.js:125-128 | a restart onto a freshly dealt face-down board satisfies the invariant |
| Invariant.KeptBoardInv | assets/game.js:125-128 | a restart whose generation throws keeps a board that satisfies the invariant |
| Invariant.RestartKeepsInv | assets/game.js:125-130 | the restart preserves the invariant. No callback is pending at that moment, so none of the finished game can reach the new board |
| Session.SameSymbolsInPairs | assets/game.js:52 | cards whose symbols agree position by position pair up alike |
| Session.ClickKeepsPairs | assets/game.js:92-103 | a click changes flags only, so every symbol still occurs on exactly two cards |
| Session.ClickKeepsPlaying | assets/game.js:138 | a card click keeps the invariant, the pairing and the dimension |
| Session.TaskKeepsPlaying | assets/game.js:106-112 | a due callback keeps the invariant, the pairing and the dimension |
| Session.RestartKeepsPlaying | assets/game.js:125-130 | a restart keeps the invariant, the pairing and the dimension |
| Session.Step | assets/game.js:136-143 | every single event keeps the game in a state satisfying the invariant, with the board in pairs |
| Session.Run | assets/game.js:136-143 | every sequence of events keeps the invariant and the pairing |
| Session.Play | assets/game.js:146-148 | from a successful start-up (an even dimension), under any events, the counter stays at most 2 and equals the face-up count, the board stays in pairs, and the win panel only shows over a won board with nothing pending. The board's attribute is the one start-up left |
| Session.RestartAfterWinAsWritten | assets/game.js:125-128 | as written, pressing restart on the win panel hides it and deals an empty board, since the board has had no attribute since start-up |
| Session.RestartAfterWinCorrected | assets/game.js:125-128 | corrected, pressing restart on the win panel deals `d * d` cards in pairs for the page's dimension again, with nothing pending |
| Session.SecondClickIgnored | assets/game.js:89 | clicking the card just turned up again changes nothing |
| Session.ClickDuringMismatchIgnored | assets/game.js:90 | while a mismatch waits to be turned back, every click is ignored and not counted |
| Session.FirstFlipNotCounted | assets/game.js:92-97 | the first flip of a game leaves `totalFlips` at 0 and starts the clock |
| Session.LoneFlipTurnsUpOnly | assets/game.js:92 | a click that completes no pair changes the board only by turning up the clicked card |
| Session.PairFlipMatchesBoth | assets/game.js:102-103 | a click that completes a pair marks the clicked card and the card already showing as matched, and nothing else |
| Session.FaceUpOfFour | assets/game.js:101 | on four cards, the selector counts the face-up ones position by position |
| Session.ExampleFirstMiss | assets/game.js:92-97 | example, 2 x 2 board [Potato, Cherries, Potato, Cherries]: the first click turns card 0 up with 0 moves counted and the clock started |
| Session.ExampleSecondMiss | assets/game.js:100-106 | example: card 1 does not match, the move is counted, and `flipBackCards` is scheduled |
| Session.ExampleTurnBack | assets/game.js:82-85 | example: the callback turns both cards back |
| Session.ExampleSecondRoundOpens | assets/game.js:92-94 | example: card 0 goes up again, as move 2 |
| Session.ExampleFirstPair | assets/game.js:102-104 | example: card 2 completes the Potato pair, as move 3 |
| Session.ExampleThirdRoundOpens | assets/game.js:92-94 | example: card 1 goes up, as move 4 |
| Session.ExampleLastPair | assets/game.js:102-112 | example: card 3 completes the last pair, as move 5, and the win is scheduled |
| Session.ExampleWinReportsFive | assets/game.js:112-119 | example: after six cards were turned up, the win panel reports 5 moves |

## Left out

- DOM rendering: the selectors, the card template's HTML, class-list plumbing other than
  `flipped`, `matched` and the start button's `disabled`, the grid style, and the move and
  timer texts. They change no state the logic reads.
- Timing. The 1000 ms interval is one `Tick` event. The 800 ms and 700 ms callbacks are
  pending tasks the environment may run at any time, in any order. Real delays are not
  modelled.
- Listener registration. The card listeners are the `CardClicked` event on a current card
  position. Re-running `attachEventListeners` on restart adds a second start-button
  listener. It calls the same guarded `startGame`, and the model treats it as one listener.
- Game.Restart: assumes a restart click arrives only while the win panel shows, and makes
  any other one change nothing. The script never removes the `#restart` listener: line 126
  only removes the container's `flipped` class, and whether the button can then still be
  clicked depends on the page's style sheet, which is not part of this model. The button
  stays in the panel's markup until the next win replaces it.
- Game.StartGameIdempotent: the interval handle `state.loop` is a flag. The model assumes,
  rather than proves, that `clearInterval` at line 74 leaves at most one live interval.
- The uniformity of `Math.random` and of the shuffle. These are probabilistic properties.
  The model proves permutation and pairing under every valid draw sequence.
- Floating point. `Math.random() * n` is taken as exact real multiplication. In doubles,
  rounding can change which index a particular draw selects: `0.8333333333333333 * 6` rounds
  to 5.0, where the exact product floors to 4. Every index below `n` is still reachable and
  none reaches `n`, so the properties, which are proved for every valid draw sequence, are
  unaffected.
- The emoji text encoding. The twelve symbols are twelve distinct tokens.
- The string-to-number coercion of the `data-dimension` attribute. The model receives the
  attribute already read as an integer, or None when it is absent.
- More than 12 pairs. `pickRandom` would push `undefined` once the clone is empty. This is
  excluded by the precondition `EnoughSymbols` rather than modelled.
- Game.FlipCard: requires the counter to agree with the board. The source indexes
  `flipped[0]` and `flipped[1]` without checking that two such cards exist. The invariant
  proves the requirement holds in every reachable state.
- Session.Step: a click on a position with no card, or a callback position with nothing
  pending, is an event that cannot occur. It leaves the game unchanged.
- Error cases the code does not have. `generateGame` only tests parity: a dimension of 0
  or a negative even one raises no error, and neither does one needing more than 12 pairs.
- A full reset on restart. The restart listener clears only `gameStarted`. The counters
  are reset by the next `startGame`.
- Callbacks outliving a restart. The model takes a restart to come from the win panel,
  and by then nothing is pending, as `Invariant.RestartKeepsInv` proves.
- The example game of `Session` turns up six cards and reports 5 moves, as
  `Session.ExampleWinReportsFive` shows, because the first flip is wiped.

## Findings

| source | as written | input that shows it | evidently intended | confidence | as-written member | corrected member |
|---|---|---|---|---|---|---|
| assets/game.js:56-62 | `generateGame` replaces the board with a new `div` that never gets a `data-dimension` attribute. The restart's `generateGame` then reads `null`, which passes the parity test as 0 and picks `0 * 0 / 2 = 0` symbols | a 4 x 4 page: the first game has 16 cards; after winning and pressing restart, the board is empty | the new board keeps the page's dimension, so every restart deals a full board again | not executed | Board.GenerateGameAsWritten, Board.FirstGenerationDropsDimension, Board.MissingDimensionGivesEmptyBoard, Session.RestartAfterWinAsWritten | Board.GenerateGame, Board.RegenerationKeepsDimension, Session.RestartAfterWinCorrected |
