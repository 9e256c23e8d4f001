/** The deck: the canonical 52-card sequence and dealing from its front. */
module Decks {
  import opened Cards

  /** Concatenates the rows in order, as `flatMap { $0 }` does. */
  function Flatten(rows: seq<seq<Card>>): seq<Card>
  {
    if rows == [] then [] else rows[0] + Flatten(rows[1..])
  }

  /** One row per suit (in allCases order), each holding that suit's cards
      in rank order; every card is created face up. */
  function SuitRows(): seq<seq<Card>>
  {
    seq(|AllSuits|, i requires 0 <= i < |AllSuits| =>
      seq(|AllRanks|, j requires 0 <= j < |AllRanks| => Card(true, AllRanks[j], AllSuits[i])))
  }

  /** The initial value of Deck.cards: suit-major, rank-minor. */
  function FreshDeck(): (d: seq<Card>)
    ensures |d| == |AllSuits| * |AllRanks|
  {
    FlattenLength(SuitRows(), |AllRanks|);
    Flatten(SuitRows())
  }

  /** Flattening rows that all have length n gives |rows| * n cards. */
  lemma {:induction false} FlattenLength(rows: seq<seq<Card>>, n: nat)
    requires forall k :: 0 <= k < |rows| ==> |rows[k]| == n
    ensures |Flatten(rows)| == |rows| * n
  {
    if rows != [] {
      FlattenLength(rows[1..], n);
    }
  }

  /** In the flattening of rows of length n, position i * n + j holds
      the j-th card of the i-th row. */
  lemma {:induction false} FlattenAt(rows: seq<seq<Card>>, n: nat, i: nat, j: nat)
    requires forall k :: 0 <= k < |rows| ==> |rows[k]| == n
    requires i < |rows| && j < n
    ensures i * n + j < |Flatten(rows)|
    ensures Flatten(rows)[i * n + j] == rows[i][j]
  {
    FlattenLength(rows, n);
    if i > 0 {
      FlattenAt(rows[1..], n, i - 1, j);
      assert i * n + j == n + ((i - 1) * n + j);
    }
  }

  /** The fresh deck holds 52 cards; position p holds the rank p % 13 of
      the suit p / 13, face up. */
  lemma FreshDeckCardAt(p: nat)
    requires p < 52
    ensures |FreshDeck()| == 52
    ensures FreshDeck()[p] == Card(true, AllRanks[p % 13], AllSuits[p / 13])
  {
    FlattenLength(SuitRows(), 13);
    FlattenAt(SuitRows(), 13, p / 13, p % 13);
  }

  /** The card of suit s and rank r sits at position 13 * s + r. */
  lemma FreshDeckAt(s: Suit, r: Rank)
    ensures |FreshDeck()| == 52
    ensures 13 * SuitIndex(s) + RawValue(r) < 52
    ensures FreshDeck()[13 * SuitIndex(s) + RawValue(r)] == Card(true, r, s)
  {
    var p := 13 * SuitIndex(s) + RawValue(r);
    FreshDeckCardAt(p);
    assert p / 13 == SuitIndex(s) && p % 13 == RawValue(r);
  }

  /** No two cards of the fresh deck are equal. */
  lemma FreshDeckNoDuplicates()
    ensures NoDuplicates(FreshDeck())
  {
    FreshDeckCardAt(0);
    forall i, j | 0 <= i < j < |FreshDeck()|
      ensures !CardEq(FreshDeck()[i], FreshDeck()[j])
    {
      FreshDeckCardAt(i);
      FreshDeckCardAt(j);
      assert i == 13 * (i / 13) + i % 13;
      assert j == 13 * (j / 13) + j % 13;
      if i / 13 == j / 13 {
        RawValueOfRank(i % 13);
        RawValueOfRank(j % 13);
        assert AllRanks[i % 13] != AllRanks[j % 13];
      } else {
        SuitIndexOfSuit(i / 13);
        SuitIndexOfSuit(j / 13);
        assert AllSuits[i / 13] != AllSuits[j / 13];
      }
    }
  }

  /** Every rank-and-suit pair occurs in the fresh deck. */
  lemma FreshDeckComplete(s: Suit, r: Rank)
    ensures exists p :: 0 <= p < |FreshDeck()| && CardEq(FreshDeck()[p], Card(true, r, s))
  {
    FreshDeckAt(s, r);
  }

  /** Deck: its cards, dealt from the front. */
  class Deck {
    var cards: seq<Card>

    constructor ()
      ensures cards == FreshDeck()
    {
      cards := FreshDeck();
    }

    /** Removes the first card and returns it; an empty deck traps. */
    method Deal() returns (c: Card)
      requires cards != []
      modifies this
      ensures c == old(cards)[0]
      ensures cards == old(cards)[1..]
    {
      c := cards[0];
      cards := cards[1..];
    }
  }
}
