/** The game: a deck, the players, and the four operations on them. */
module Poker {
  import opened Cards
  import opened Options
  import opened Decks
  import opened Players
  import opened Dealing
  import opened Redrawing
  import opened Scoring

  /** A redraw moves cards from the deck into the target hand and out of the
      hand as discards: the cards of all hands, the deck and the discards
      together are the cards the hands and the deck held before. */
  lemma RedrawConserves(ps: seq<Player>, playerId: nat, deck: seq<Card>, cards: seq<Card>, u: Table)
    requires playerId < |ps|
    requires RedrawAll(cards, Table(ps[playerId].hand, deck, [])) == Some(u)
    ensures Holdings(ps[playerId := ps[playerId].(hand := u.hand)]) + multiset(u.deck) + multiset(u.discarded)
            == Holdings(ps) + multiset(deck)
  {
    var t := Table(ps[playerId].hand, deck, []);
    RedrawAllRedraws(cards, t, u);
    assert multiset(u.hand) + multiset(u.deck) + multiset(u.discarded)
           == multiset(t.hand) + multiset(t.deck) + multiset(t.discarded);
    assert multiset(t.hand) + multiset(t.deck) + multiset(t.discarded) == multiset(t.hand) + multiset(deck);
    HoldingsUpdate(ps, playerId, u.hand);
    ExchangeCards(Holdings(ps[playerId := ps[playerId].(hand := u.hand)]), multiset(t.hand), multiset(u.hand),
                  multiset(u.deck), multiset(u.discarded), Holdings(ps), multiset(deck));
  }

  /** Cards exchanged through one hand: if the rest of the game gains what
      the hand gives up, the totals agree. */
  lemma ExchangeCards(others: multiset<Card>, before: multiset<Card>, after: multiset<Card>,
                      left: multiset<Card>, discards: multiset<Card>, total: multiset<Card>, deck: multiset<Card>)
    requires others + before == total + after
    requires after + left + discards == before + deck
    ensures others + left + discards == total + deck
  {
    forall x ensures (others + left + discards)[x] == (total + deck)[x] {
      assert (others + before)[x] == (total + after)[x];
      assert (after + left + discards)[x] == (before + deck)[x];
    }
  }

  class ChicagoPoker {
    const deck: Deck
    var players: seq<Player>

    /** A new game: a fresh deck and numPlayers players with ids 0, 1, ...
        in order and empty hands. */
    constructor (numPlayers: nat)
      ensures fresh(deck)
      ensures deck.cards == FreshDeck()
      ensures players == Roster(numPlayers)
    {
      deck := new Deck();
      var ps: seq<Player> := [];
      var playerId := 0;
      while playerId < numPlayers
        invariant playerId <= numPlayers
        invariant ps == Roster(playerId)
      {
        ps := ps + [Player(playerId, [])];
        playerId := playerId + 1;
      }
      players := ps;
    }

    /** Seven rounds; each round deals one card from the front of the deck
        to every player in index order. The deck must hold enough cards. */
    method InitialDeal()
      requires Rounds * |players| <= |deck.cards|
      modifies this, deck
      ensures DealRounds(old(DealState(players, deck.cards)), Rounds) == Some(DealState(players, deck.cards))
      ensures |players| == |old(players)|
      ensures forall i :: 0 <= i < |players| ==>
                players[i] == old(players[i]).(hand := old(players[i].hand) + DealtTo(old(deck.cards), |players|, i, Rounds))
      ensures deck.cards == old(deck.cards)[Rounds * |players|..]
      ensures Holdings(players) + multiset(deck.cards) == old(Holdings(players) + multiset(deck.cards))
    {
      ghost var start := DealState(players, deck.cards);
      var round := 0;
      while round < Rounds
        invariant round <= Rounds
        invariant DealRounds(start, round) == Some(DealState(players, deck.cards))
      {
        MulMono(round + 1, Rounds, |start.players|);
        ghost var before := DealState(players, deck.cards);
        DealRoundsNext(start, round, before);
        var idx := 0;
        while idx < |players|
          invariant idx <= |players| == |before.players| <= |before.deck|
          invariant deck.cards == before.deck[idx..]
          invariant forall i :: 0 <= i < idx ==> players[i] == before.players[i].(hand := before.players[i].hand + [before.deck[i]])
          invariant forall i :: idx <= i < |players| ==> players[i] == before.players[i]
        {
          var c := deck.Deal();
          players := players[idx := players[idx].(hand := players[idx].hand + [c])];
          idx := idx + 1;
        }
        assert players == RoundPlayers(before.players, before.deck);
        assert DealState(players, deck.cards) == DealRound(before);
        round := round + 1;
      }
      DealRoundsFacts(start, Rounds, DealState(players, deck.cards));
    }

    /** For each requested card in order, every position of the player's
        hand holding an equal card at the moment it is visited is
        overwritten with a card dealt from the deck. Only the target
        player's hand and the deck change. */
    method Redraw(playerId: int, cards: seq<Card>)
      requires cards != [] ==> 0 <= playerId < |players|
      requires cards != [] ==> RedrawAll(cards, Table(players[playerId].hand, deck.cards, [])).Some?
      modifies this, deck
      ensures cards == [] ==> players == old(players) && deck.cards == old(deck.cards)
      ensures cards != [] ==>
                var u := RedrawAll(cards, Table(old(players[playerId].hand), old(deck.cards), [])).value;
                && players == old(players)[playerId := old(players[playerId]).(hand := u.hand)] && deck.cards == u.deck
                && Holdings(players) + multiset(deck.cards) + multiset(u.discarded) == old(Holdings(players) + multiset(deck.cards))
    {
      ghost var goal := if cards == [] then None else RedrawAll(cards, Table(players[playerId].hand, deck.cards, []));
      ghost var discarded: seq<Card> := [];
      var cardIndex := 0;
      while cardIndex < |cards|
        invariant cardIndex <= |cards|
        invariant cards == [] ==> players == old(players) && deck.cards == old(deck.cards)
        invariant cards != [] ==>
                    && 0 <= playerId < |players| == |old(players)|
                    && players == old(players)[playerId := old(players[playerId]).(hand := players[playerId].hand)]
                    && goal.Some?
                    && RedrawAll(cards[cardIndex..], Table(players[playerId].hand, deck.cards, discarded)) == goal
      {
        assert cards[cardIndex..][1..] == cards[cardIndex + 1..];
        var handIndex := 0;
        var handSize := |players[playerId].hand|;
        while handIndex < handSize
          invariant 0 <= playerId < |players| == |old(players)|
          invariant handIndex <= handSize == |players[playerId].hand|
          invariant players == old(players)[playerId := old(players[playerId]).(hand := players[playerId].hand)]
          invariant Sweep(cards[cardIndex], Table(players[playerId].hand, deck.cards, discarded), handIndex).Some?
          invariant RedrawAll(cards[cardIndex + 1..], Sweep(cards[cardIndex], Table(players[playerId].hand, deck.cards, discarded), handIndex).value) == goal
        {
          if CardEq(cards[cardIndex], players[playerId].hand[handIndex]) {
            var c := deck.Deal();
            discarded := discarded + [players[playerId].hand[handIndex]];
            players := players[playerId := players[playerId].(hand := players[playerId].hand[handIndex := c])];
          }
          handIndex := handIndex + 1;
        }
        cardIndex := cardIndex + 1;
      }
      if cards != [] {
        RedrawConserves(old(players), playerId, old(deck.cards), cards, goal.value);
      }
    }

    /** The score of a hand as the scorer computes it: one pass building
        the rank-count table and the flush and straight flags, then the
        priority chain. Reads and changes no game state. */
    method ScorePokerHand(hand: seq<Card>) returns (score: int)
      ensures score == HandScore(hand)
    {
      var counts: map<Rank, int> := map[];
      var isFlush := false;
      var isStraight := false;
      var i := 0;
      while i < |hand|
        invariant i <= |hand|
        invariant counts.Keys == RanksIn(hand[..i])
        invariant forall r :: r in counts ==> counts[r] == RankCount(hand[..i], r)
        invariant isFlush == FlushFlag(hand[..i])
        invariant isStraight == StraightFlag(hand[..i])
      {
        var card := hand[i];
        assert hand[..i + 1] == hand[..i] + [card];
        RanksInAppend(hand[..i], card);
        forall r ensures RankCount(hand[..i + 1], r) == RankCount(hand[..i], r) + (if card.rank == r then 1 else 0) {
          RankCountAppend(hand[..i], card, r);
        }
        if card.suit != hand[0].suit {
          isFlush := false;
        } else {
          isFlush := true;
        }
        if card.rank in counts {
          counts := counts[card.rank := counts[card.rank] + 1];
        } else {
          RankCountPositive(hand[..i], card.rank);
          counts := counts[card.rank := 1];
        }
        isStraight := false;
        i := i + 1;
      }
      assert hand[..i] == hand;
      // As in HandScore, the rank test comes after the flush flag, which
      // guarantees that hand[0] exists.
      if isFlush && hand[0].rank == R10 && isStraight {
        score := 52;
      } else if isFlush && isStraight {
        score := 8;
      } else if 4 in counts.Values {
        score := 7;
      } else if 3 in counts.Values && 2 in counts.Values {
        score := 6;
      } else if isFlush {
        score := 5;
      } else if isStraight {
        score := 4;
      } else if 3 in counts.Values {
        score := 3;
      } else if 2 in counts.Values && |counts| == 3 {
        score := 2;
      } else if 2 in counts.Values {
        score := 1;
      } else {
        score := 0;
      }
    }
  }
}
