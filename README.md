# Chicago poker game model

This is a Dafny model of the game core of ChicagoPoker, a small Swift poker app. The model covers:

- **Cards.** There are thirteen ranks and four suits. Card equality compares rank and suit only.
- **The deck.** A fresh deck holds 52 cards, suit-major and rank-minor. `deal()` removes the front card.
- **The game.** It holds a deck and a roster of players. It has four operations:
  - the constructor, which creates players with ids `0 ..< numPlayers`;
  - the initial deal, seven round-robin rounds;
  - the redraw, which overwrites matching cards in one player's hand in place;
  - the hand scorer.

The model keeps the shape of the Swift code:

- The game is a class (`Poker.ChicagoPoker`). Its fields are the deck and the player list.
- The deck is a class (`Decks.Deck`) with a `cards` field. `Deal` removes the first card and returns it.
- The constructor, `InitialDeal`, `Redraw` and `ScorePokerHand` are methods with the same loops as the source.
- Each method is proved against a specification function over values:
  - `Dealing.DealRounds`;
  - `Redrawing.RedrawAll` and its inner sweep `Redrawing.Sweep`;
  - `Scoring.HandScore`.
- The properties of the game are lemmas about those functions.

The scorer is modelled as written, not as the rules of poker would have it:

- The flush flag is overwritten on every iteration. Only the comparison of the last card's suit with the first card's survives.
- The straight flag is always false. The scores 52, 8 and 4 are therefore never returned.
- The two-pair test asks for exactly three distinct ranks. A seven-card hand with two pairs therefore scores 1 when its last card's suit differs from its first card's. When the two suits match, the flush test fires first and the hand scores 5.

Other places where the model follows the source code:

- **Five clubs.** A hand of five clubs, such as 2, 5, 7, 9 and K, scores 5, because its last card has the first card's suit (`Scoring.AllClubsScoresFive`). The code returns 5 for this hand, and the model follows the code.
- **Empty hand.** The scorer accepts an empty hand and scores it 0. The loop does not run, and `hand[0]` is reached only after the flush flag, which is false, so nothing traps.
- **Empty redraw.** A redraw with an empty request list does not look at `players[playerId]`. The player index is therefore required to be in range only when cards are requested.

Where the source traps (`removeFirst` on an empty deck, an out-of-range player index), the model does this:

- `Deal` and `InitialDeal` require enough cards in the deck.
- `Redraw` requires `0 <= playerId < |players|` when `cards` is non-empty. This is the only place the index trap is handled; no specification function takes a player index.
- `Redraw` is required to be a call for which the specification function returns `Some`.
- For the empty-deck trap only, the specification functions return `None` (`Options.Option`) on the trapping path. `Dealing.DealRoundsSucceeds` states exactly when the deal takes that path. `Redrawing.RedrawDealsMatches` does the same for the redraw, but only when no card left in the deck equals a requested card. Without that hypothesis, a card dealt into the hand can itself be requested later and be replaced again, so one position can cost more than one deal.

## Model

| member | source | states |
|---|---|---|
| Cards.RawValue | ChicagoPoker/ChicagoPoker.swift:117-130 | the raw value of a rank is its position in `allCases`, so `allCases[rawValue]` is the rank itself |
| Cards.SuitIndex | ChicagoPoker/ChicagoPoker.swift:106-111 | the position of a suit in `allCases`, where that suit is found |
| Cards.CardEq | ChicagoPoker/ChicagoPoker.swift:102-104 | the card `==` operator: rank and suit agree; `isFaceUp` is not compared |
| Cards.CardEqIgnoresFaceUp | ChicagoPoker/ChicagoPoker.swift:102-104 | `==` holds exactly when the cards differ at most in `isFaceUp`, in both directions |
| Cards.CardEqIsEquivalence | ChicagoPoker/ChicagoPoker.swift:102-104 | card `==` is reflexive, symmetric and transitive |
| Decks.Flatten | ChicagoPoker/ChicagoPoker.swift:159 | `flatMap { $0 }`: the rows concatenated in order |
| Decks.SuitRows | ChicagoPoker/ChicagoPoker.swift:153-158 | the nested `map`: one row per suit in `allCases` order, each that suit's thirteen cards in rank order, face up |
| Decks.FreshDeck | ChicagoPoker/ChicagoPoker.swift:153-159 | the initial deck: for each suit in `allCases` order, that suit's cards in rank order, face up, flattened into one sequence of 4 * 13 cards |
| Decks.FreshDeckCardAt | ChicagoPoker/ChicagoPoker.swift:153-159 | the fresh deck has 52 cards; position p holds rank `p % 13` of suit `p / 13`, face up |
| Decks.FreshDeckAt | ChicagoPoker/ChicagoPoker.swift:153-159 | the card of suit s and rank r sits at index `13 * s + r` |
| Decks.FreshDeckNoDuplicates | ChicagoPoker/ChicagoPoker.swift:153-159 | no two positions of the fresh deck hold cards equal under `==` |
| Decks.FreshDeckComplete | ChicagoPoker/ChicagoPoker.swift:153-159 | every rank and suit pair occurs in the fresh deck |
| Decks.Deck.constructor | ChicagoPoker/ChicagoPoker.swift:153-159 | a new deck holds the fresh 52-card sequence |
| Decks.Deck.Deal | ChicagoPoker/ChicagoPoker.swift:161-163 | requires a non-empty deck; returns the old first card and leaves exactly the old tail |
| Players.Roster | ChicagoPoker/ChicagoPoker.swift:88-94 | n players, where player i has id i and an empty hand |
| Poker.ChicagoPoker.constructor | ChicagoPoker/ChicagoPoker.swift:14-18 | the game gets a fresh deck and the roster of `numPlayers` players in id order |
| Poker.ChicagoPoker.InitialDeal | ChicagoPoker/ChicagoPoker.swift:20-27 | given 7 cards per player: the new state is seven rounds of `DealRounds`; player i's hand is extended by the cards at positions `k * n + i` for k < 7; the deck loses exactly its first `7 * n` cards; cards in hands plus deck are unchanged as a multiset |
| Dealing.RoundPlayers | ChicagoPoker/ChicagoPoker.swift:23-25 | the players after one pass of the inner loop: player i's hand gains the deck's card i |
| Dealing.DealRound | ChicagoPoker/ChicagoPoker.swift:23-25 | one round: the players as `RoundPlayers` leaves them, and the deck without its first n cards |
| Dealing.DealRounds | ChicagoPoker/ChicagoPoker.swift:22-26 | r rounds, each dealing the front card of the deck to every player in index order; None when a round finds fewer cards than players, where `deal()` traps; on success the number of players is kept and the deck does not grow |
| Dealing.DealRoundsShape | ChicagoPoker/ChicagoPoker.swift:22-26 | after r rounds, player i's hand has gained the r cards at positions `k * n + i`; ids and the number of players are unchanged; the deck is the old deck without its first `r * n` cards |
| Dealing.DealRoundsSucceeds | ChicagoPoker/ChicagoPoker.swift:22-26 | the deal of r rounds avoids the empty-deck trap exactly when the deck holds at least r cards per player |
| Dealing.DealRoundsConserves | ChicagoPoker/ChicagoPoker.swift:22-26 | the deal only moves cards from the deck to the hands: hands plus deck are the same multiset before and after |
| Dealing.DealRoundConserves | ChicagoPoker/ChicagoPoker.swift:23-25 | one round only moves cards from the deck to the hands |
| Dealing.RoundHoldings | ChicagoPoker/ChicagoPoker.swift:23-25 | one round adds the first n deck cards to the players' cards |
| Dealing.DealtCardsDistinct | ChicagoPoker/ChicagoPoker.swift:22-26 | from a deck without duplicates, no two dealt cards are equal, within a hand or across hands, and none equals a card left in the deck |
| Poker.ChicagoPoker.Redraw | ChicagoPoker/ChicagoPoker.swift:29-37 | with no requested cards nothing changes; otherwise only the target player's hand and the deck change, into the hand and deck that `RedrawAll` computes, and all hands plus the deck plus the overwritten cards are the multiset the hands and the deck held before |
| Poker.RedrawConserves | ChicagoPoker/ChicagoPoker.swift:29-37 | a redraw creates and loses no card: all players' hands, the remaining deck and the overwritten cards together equal the old hands plus the old deck |
| Redrawing.Sweep | ChicagoPoker/ChicagoPoker.swift:31-35 | the inner loop for one requested card: positions are visited in index order, and each whose current card equals the requested card is overwritten with the deck's front card, which is dealt; None when a deal finds the deck empty; on success the hand keeps its length and the deck does not grow |
| Redrawing.RedrawAll | ChicagoPoker/ChicagoPoker.swift:29-37 | the outer loop: one pass over the hand for each requested card in order, each starting from the hand the previous one left; None if any pass traps; on success the hand keeps its length and the deck does not grow |
| Redrawing.SweepRedraws | ChicagoPoker/ChicagoPoker.swift:31-35 | one pass over the hand for a requested card overwrites only positions holding a card equal to it, where each new card is one of the first d deck cards and the deck loses exactly those d cards, and it leaves the positions before its start alone |
| Redrawing.RedrawsOneDeal | ChicagoPoker/ChicagoPoker.swift:32-33 | one overwrite keeps the hand length, takes the top card of the deck and loses no card |
| Redrawing.RedrawAllRedraws | ChicagoPoker/ChicagoPoker.swift:29-37 | the hand keeps its length; the deck loses exactly as many front cards as positions were overwritten; every overwritten card equals a requested card; a position holding no requested card keeps its card; every new card came from the dealt prefix; no card is created or lost |
| Redrawing.SweepClears | ChicagoPoker/ChicagoPoker.swift:31-35 | if the deck holds no card equal to c, a pass for c leaves no card equal to c from its start on |
| Redrawing.RedrawClears | ChicagoPoker/ChicagoPoker.swift:29-37 | if the deck holds no requested card, no requested card is left in the hand |
| Redrawing.SweepDealsMatches | ChicagoPoker/ChicagoPoker.swift:31-35 | on any deck, a pass succeeds exactly when the deck covers the positions holding a card equal to its card, and then it deals exactly one card per such position |
| Redrawing.RedrawDealsMatches | ChicagoPoker/ChicagoPoker.swift:29-37 | with no requested card in the deck, the redraw avoids the empty-deck trap exactly when the deck holds at least as many cards as the hand has requested positions, and then it deals exactly that many |
| Poker.ChicagoPoker.ScorePokerHand | ChicagoPoker/ChicagoPoker.swift:39-85 | the loop's count table, flush flag and straight flag followed by the priority chain give `HandScore(hand)`; no game state is read or changed |
| Scoring.RankCount | ChicagoPoker/ChicagoPoker.swift:54-58 | the count of a rank never exceeds the number of cards |
| Scoring.RanksIn | ChicagoPoker/ChicagoPoker.swift:54-58 | the keys of the count table, whose size is `counts.count`: the ranks present in the hand |
| Scoring.RankCountPositive | ChicagoPoker/ChicagoPoker.swift:54-58 | a rank has a positive count exactly when it is a key of the count table |
| Scoring.RankCountPermutation | ChicagoPoker/ChicagoPoker.swift:54-58 | the count table does not depend on the order of the cards |
| Scoring.RankCountsSumToLength | ChicagoPoker/ChicagoPoker.swift:41-62 | the counts of the thirteen ranks add up to the number of cards |
| Scoring.FlushFlag | ChicagoPoker/ChicagoPoker.swift:45-51 | the flush flag the loop leaves: the last card's suit equals the first card's; false for the empty hand |
| Scoring.StraightFlag | ChicagoPoker/ChicagoPoker.swift:60-61 | the straight flag the loop leaves: always false |
| Scoring.HandScore | ChicagoPoker/ChicagoPoker.swift:64-84 | the result lies in {0, 1, 2, 3, 5, 6, 7}: 52, 8 and 4 cannot be returned |
| Scoring.HasCountOf | ChicagoPoker/ChicagoPoker.swift:68-80 | `counts.values.contains(k)`: some key of the count table has count k |
| Scoring.HasCountOfIff | ChicagoPoker/ChicagoPoker.swift:68-80 | `counts.values.contains(k)` holds exactly when some rank occurs k times |
| Scoring.ScoreCategories | ChicagoPoker/ChicagoPoker.swift:64-84 | each returnable score as an if-and-only-if over the rank counts and the flush flag: a count of 4 gives 7; counts 3 and 2 give 6; then the flush flag gives 5; then 3 gives 3; then 2 with three distinct ranks gives 2, otherwise 1; else 0 |
| Scoring.ScoreIgnoresOrder | ChicagoPoker/ChicagoPoker.swift:39-84 | two hands with the same cards and the same flush flag get the same score |
| Scoring.DistinctRanksScore | ChicagoPoker/ChicagoPoker.swift:64-84 | a hand with no rank twice scores 5 if the flush flag is set and 0 otherwise |
| Scoring.OneSuitSetsFlushFlag | ChicagoPoker/ChicagoPoker.swift:45-51 | a non-empty hand of one suit sets the flush flag |
| Scoring.FlushFlagWithoutFlush | ChicagoPoker/ChicagoPoker.swift:45-51 | the flag is also set for a hand of four suits whose last card has the first card's suit |
| Scoring.MixedSuitsScoreDependsOnOrder | ChicagoPoker/ChicagoPoker.swift:45-51 | the same five cards score 5 in one order and 0 in another |
| Scoring.AllClubsScoresFive | ChicagoPoker/ChicagoPoker.swift:72-73 | 2, 5, 7, 9 and K of clubs score 5 |
| Scoring.StraightScoresHighCard | ChicagoPoker/ChicagoPoker.swift:60-61 | 2 to 6 in mixed suits, first and last suits different, score 0: no straight is detected |
| Scoring.RoyalFlushScoresFive | ChicagoPoker/ChicagoPoker.swift:64-65 | 10 to A of hearts scores 5, never the royal 52 |
| Scoring.FourOfAKindScoresSeven | ChicagoPoker/ChicagoPoker.swift:68-69 | any hand with ranks 2, 2, 2, 2, 5 scores 7 |
| Scoring.FullHouseScoresSix | ChicagoPoker/ChicagoPoker.swift:70-71 | any hand with ranks 3, 3, 3, 7, 7 scores 6, whatever its suits |
| Scoring.ThreeOfAKindScoresThree | ChicagoPoker/ChicagoPoker.swift:76-77 | any hand with ranks 8, 8, 8, 2, K and the flush flag clear scores 3 |
| Scoring.FiveCardScoreTwoHasTwoPairs | ChicagoPoker/ChicagoPoker.swift:78-79 | a five-card hand scored 2 has the flush flag clear and two different ranks twice each |
| Scoring.FiveCardTwoPairsScoreTwo | ChicagoPoker/ChicagoPoker.swift:78-79 | conversely, a five-card hand with two different pairs and the flush flag clear scores 2 |
| Scoring.TwoPairScoresTwo | ChicagoPoker/ChicagoPoker.swift:78-79 | any hand with ranks 4, 4, 9, 9, K and the flush flag clear scores 2 |
| Scoring.SevenCardTwoPairScoresOne | ChicagoPoker/ChicagoPoker.swift:78-81 | any seven-card hand with ranks 2, 2, 3, 3, 4, 5, 6 and the flush flag clear scores 1: the two-pair test needs exactly three distinct ranks |

## Left out

- Shuffling and the SwiftUI views: `ContentView.swift` is not part of this model. Shuffling is a library call that draws randomness.
- Display strings: the suits' emoji raw values, the rank descriptions and the string `Card.id` are cosmetic.
- The `isFaceUp` flag: it is kept as a card field, and `==` is shown to ignore it. No logic sets it.
- `Player.score` and `Player.isPlayerTurn`: no code shown reads or writes them. The unused generic parameter `CardContent` is dropped for the same reason.
- Swift `Int` width: player ids and counts are unbounded integers. The values involved (at most 52 cards) never come near the 64-bit limit.
- Traps are not modelled as crashes. An empty deck becomes a precondition of `Deal`, `InitialDeal` and `Redraw`, and `None` in the specification functions. An out-of-range player index becomes only a precondition of `Redraw`, and only when cards are requested. A negative player count, on which `0..<numPlayers` traps in the constructor, is ruled out by the parameter's type `nat`.
- Value semantics of Swift structs: the game and the deck are classes with one owner each, so aliasing between copies of a game is not modelled.
- The comment that the scorer assumes a hand sorted by rank: the code never uses or checks it, so the model does not require it.
