/** Card values of the Chicago poker game: the Suit and Rank enumerations
    and cards compared by rank and suit only. */
module Cards {

  /** The four suits, in their declaration (allCases) order. */
  datatype Suit = Clubs | Spades | Hearts | Diamonds

  /** The thirteen ranks, two to ace; the raw value of each is its position. */
  datatype Rank = R2 | R3 | R4 | R5 | R6 | R7 | R8 | R9 | R10 | RJ | RQ | RK | RA

  /** A card. The face-up flag is for display; card equality ignores it. */
  datatype Card = Card(isFaceUp: bool, rank: Rank, suit: Suit)

  /** Suit.allCases */
  const AllSuits: seq<Suit> := [Clubs, Spades, Hearts, Diamonds]

  /** Rank.allCases */
  const AllRanks: seq<Rank> := [R2, R3, R4, R5, R6, R7, R8, R9, R10, RJ, RQ, RK, RA]

  /** Rank.rawValue: the position of the rank in allCases. */
  function RawValue(r: Rank): (v: nat)
    ensures v < |AllRanks| && AllRanks[v] == r
  {
    match r
    case R2 => 0   case R3 => 1   case R4 => 2   case R5 => 3
    case R6 => 4   case R7 => 5   case R8 => 6   case R9 => 7
    case R10 => 8  case RJ => 9   case RQ => 10  case RK => 11
    case RA => 12
  }

  /** The position of a suit in allCases. */
  function SuitIndex(s: Suit): (v: nat)
    ensures v < |AllSuits| && AllSuits[v] == s
  {
    match s
    case Clubs => 0  case Spades => 1  case Hearts => 2  case Diamonds => 3
  }

  /** Going from a position in allCases to the rank and back gives the position. */
  lemma RawValueOfRank(i: nat)
    requires i < |AllRanks|
    ensures RawValue(AllRanks[i]) == i
  {
  }

  /** Going from a position in allCases to the suit and back gives the position. */
  lemma SuitIndexOfSuit(i: nat)
    requires i < |AllSuits|
    ensures SuitIndex(AllSuits[i]) == i
  {
  }

  /** The card equality operator: rank and suit agree. */
  predicate CardEq(a: Card, b: Card)
  {
    a.rank == b.rank && a.suit == b.suit
  }

  /** Card equality is value equality once the display flag is set aside:
      two cards are equal exactly when they differ at most in isFaceUp. */
  lemma CardEqIgnoresFaceUp(a: Card, b: Card)
    ensures CardEq(a, b) <==> a.(isFaceUp := b.isFaceUp) == b
    ensures CardEq(a, b) <==> a.(isFaceUp := true) == b.(isFaceUp := true)
  {
  }

  /** Card equality is an equivalence relation. */
  lemma CardEqIsEquivalence(a: Card, b: Card, c: Card)
    ensures CardEq(a, a)
    ensures CardEq(a, b) ==> CardEq(b, a)
    ensures CardEq(a, b) && CardEq(b, c) ==> CardEq(a, c)
  {
  }

  /** No two positions of s hold equal cards. */
  ghost predicate NoDuplicates(s: seq<Card>)
  {
    forall i, j :: 0 <= i < j < |s| ==> !CardEq(s[i], s[j])
  }
}
