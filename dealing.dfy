/** The round-robin initial deal, as a function of the deck it starts from. */
module Dealing {
  import opened Cards
  import opened Options
  import opened Players

  /** Number of rounds of the initial deal: every player ends up with seven cards. */
  const Rounds: nat := 7

  lemma MulMono(a: nat, b: nat, n: nat)
    requires a <= b
    ensures a * n <= b * n
  {
  }

  /** In a round-robin deal to n players, card k * n + i is the k-th one
      player i receives, and lies inside the first rounds * n cards. */
  lemma DealIndexBound(k: nat, i: nat, n: nat, rounds: nat)
    requires k < rounds && i < n
    ensures k * n + i < rounds * n
  {
    MulMono(k + 1, rounds, n);
  }

  /** Different (round, player) pairs take different deck positions. */
  lemma DealIndexInjective(k1: nat, i1: nat, k2: nat, i2: nat, n: nat)
    requires i1 < n && i2 < n
    requires k1 * n + i1 == k2 * n + i2
    ensures k1 == k2 && i1 == i2
  {
    if k1 < k2 {
      MulMono(k1 + 1, k2, n);
    } else if k2 < k1 {
      MulMono(k2 + 1, k1, n);
    }
  }

  /** The cards player i of n receives, in order, during the first `rounds`
      rounds of dealing one card to every player in index order from deck:
      in round k it is the card at position k * n + i. */
  function DealtTo(deck: seq<Card>, n: nat, i: nat, rounds: nat): seq<Card>
    requires i < n && rounds * n <= |deck|
  {
    seq(rounds, k requires 0 <= k < rounds => (DealIndexBound(k, i, n, rounds); deck[k * n + i]))
  }

  /** One more round appends one card, from position r * n + i, to the cards of player i. */
  lemma DealtToNextRound(deck: seq<Card>, n: nat, i: nat, r: nat)
    requires i < n && (r + 1) * n <= |deck|
    ensures r * n + i < |deck|
    ensures DealtTo(deck, n, i, r + 1) == DealtTo(deck, n, i, r) + [deck[r * n + i]]
  {
    var b := r * n;
    assert b + n == (r + 1) * n;
    var longer, shorter := DealtTo(deck, n, i, r + 1), DealtTo(deck, n, i, r);
    assert |longer| == |shorter| + 1;
    forall k | 0 <= k < r
      ensures longer[k] == shorter[k]
    {
    }
  }

  lemma RoundStart(r: nat, n: nat)
    ensures 0 <= r * n && r * n + n == (r + 1) * n
  {
    MulMono(0, r, n);
  }

  /** Dealing from a deck without duplicates, no two dealt cards are equal
      (neither in one hand nor across hands), and no dealt card equals a
      card left in the deck. */
  lemma DealtCardsDistinct(deck: seq<Card>, n: nat, rounds: nat)
    requires rounds * n <= |deck| && NoDuplicates(deck)
    ensures forall i, j, k1, k2 :: 0 <= i < n && 0 <= j < n && 0 <= k1 < rounds && 0 <= k2 < rounds && (i != j || k1 != k2) ==>
              !CardEq(DealtTo(deck, n, i, rounds)[k1], DealtTo(deck, n, j, rounds)[k2])
    ensures forall i, k, p :: 0 <= i < n && 0 <= k < rounds && rounds * n <= p < |deck| ==>
              !CardEq(DealtTo(deck, n, i, rounds)[k], deck[p])
  {
    forall i, j, k1, k2 | 0 <= i < n && 0 <= j < n && 0 <= k1 < rounds && 0 <= k2 < rounds && (i != j || k1 != k2)
      ensures !CardEq(DealtTo(deck, n, i, rounds)[k1], DealtTo(deck, n, j, rounds)[k2])
    {
      DealIndexBound(k1, i, n, rounds);
      DealIndexBound(k2, j, n, rounds);
      if k1 * n + i == k2 * n + j {
        DealIndexInjective(k1, i, k2, j, n);
      }
    }
    forall i, k, p | 0 <= i < n && 0 <= k < rounds && rounds * n <= p < |deck|
      ensures !CardEq(DealtTo(deck, n, i, rounds)[k], deck[p])
    {
      DealIndexBound(k, i, n, rounds);
    }
  }

  /** The players and the deck while they are being dealt. */
  datatype DealState = DealState(players: seq<Player>, deck: seq<Card>)

  /** The players after one round: player i receives the deck's card i. */
  function RoundPlayers(ps: seq<Player>, deck: seq<Card>): seq<Player>
    requires |ps| <= |deck|
  {
    seq(|ps|, i requires 0 <= i < |ps| => ps[i].(hand := ps[i].hand + [deck[i]]))
  }

  /** One round of the deal: one card to every player in index order, so the
      first |players| cards leave the deck. */
  function DealRound(s: DealState): DealState
    requires |s.players| <= |s.deck|
  {
    DealState(RoundPlayers(s.players, s.deck), s.deck[|s.players|..])
  }

  /** The state after `rounds` rounds, or None when a round finds fewer
      cards than players (the deal from an empty deck traps). */
  function DealRounds(s: DealState, rounds: nat): (r: Option<DealState>)
    ensures r.Some? ==> |r.value.players| == |s.players| && |r.value.deck| <= |s.deck|
  {
    if rounds == 0 then Some(s)
    else match DealRounds(s, rounds - 1)
      case None => None
      case Some(t) => if |t.deck| < |t.players| then None else Some(DealRound(t))
  }

  /** After r rounds every player's hand has grown by the cards dealt to it
      in round-robin order, ids and the number of players are unchanged, and
      the deck has lost exactly its first r * n cards. */
  lemma {:induction false} DealRoundsShape(s: DealState, r: nat)
    requires DealRounds(s, r).Some?
    ensures r * |s.players| <= |s.deck|
    ensures |DealRounds(s, r).value.players| == |s.players|
    ensures DealRounds(s, r).value.deck == s.deck[r * |s.players|..]
    ensures forall i :: 0 <= i < |s.players| ==>
              DealRounds(s, r).value.players[i] == s.players[i].(hand := s.players[i].hand + DealtTo(s.deck, |s.players|, i, r))
  {
    var n := |s.players|;
    if r > 0 {
      var t := DealRounds(s, r - 1).value;
      DealRoundsShape(s, r - 1);
      RoundStart(r - 1, n);
      assert (r - 1) * n + n == r * n;
      var u := DealRounds(s, r).value;
      assert u == DealRound(t);
      forall i | 0 <= i < n
        ensures u.players[i] == s.players[i].(hand := s.players[i].hand + DealtTo(s.deck, n, i, r))
      {
        DealtToNextRound(s.deck, n, i, r - 1);
        assert t.deck[i] == s.deck[(r - 1) * n + i];
      }
    }
  }

  /** A deal that got through r rounds and has cards for one more round
      performs it as one more DealRound. */
  lemma DealRoundsNext(s: DealState, r: nat, t: DealState)
    requires DealRounds(s, r) == Some(t) && (r + 1) * |s.players| <= |s.deck|
    ensures |t.players| == |s.players| <= |t.deck|
    ensures DealRounds(s, r + 1) == Some(DealRound(t))
  {
    DealRoundsShape(s, r);
    RoundStart(r, |s.players|);
  }

  /** The deal of r rounds succeeds exactly when the deck holds r cards per player. */
  lemma {:induction false} DealRoundsSucceeds(s: DealState, r: nat)
    ensures DealRounds(s, r).Some? <==> r * |s.players| <= |s.deck|
  {
    var n := |s.players|;
    if DealRounds(s, r).Some? {
      DealRoundsShape(s, r);
    } else if r > 0 && r * n <= |s.deck| {
      RoundStart(r - 1, n);
      DealRoundsSucceeds(s, r - 1);
      DealRoundsShape(s, r - 1);
    }
  }

  /** A round hands the first |ps| cards of the deck to the players. */
  lemma {:induction false} RoundHoldings(ps: seq<Player>, deck: seq<Card>)
    requires |ps| <= |deck|
    ensures Holdings(RoundPlayers(ps, deck)) == Holdings(ps) + multiset(deck[..|ps|])
  {
    if ps != [] {
      var after, rest := RoundPlayers(ps, deck), RoundPlayers(ps[1..], deck[1..]);
      RoundHoldings(ps[1..], deck[1..]);
      assert after[1..] == rest;
      assert deck[..|ps|] == [deck[0]] + deck[1..][..|ps| - 1];
      var first, dealt := multiset(ps[0].hand), multiset(deck[1..][..|ps| - 1]);
      calc {
        Holdings(after);
        multiset(ps[0].hand + [deck[0]]) + Holdings(rest);
        (first + multiset{deck[0]}) + (Holdings(ps[1..]) + dealt);
        (first + Holdings(ps[1..])) + (multiset{deck[0]} + dealt);
        Holdings(ps) + multiset(deck[..|ps|]);
      }
    }
  }

  /** One round moves cards from the deck to the hands. */
  lemma DealRoundConserves(t: DealState)
    requires |t.players| <= |t.deck|
    ensures Holdings(DealRound(t).players) + multiset(DealRound(t).deck) == Holdings(t.players) + multiset(t.deck)
  {
    RoundHoldings(t.players, t.deck);
    var given, kept := t.deck[..|t.players|], t.deck[|t.players|..];
    assert t.deck == given + kept;
    calc {
      Holdings(DealRound(t).players) + multiset(DealRound(t).deck);
      (Holdings(t.players) + multiset(given)) + multiset(kept);
      Holdings(t.players) + (multiset(given) + multiset(kept));
      Holdings(t.players) + multiset(t.deck);
    }
  }

  /** The deal moves cards from the deck to the hands: no card is created or lost. */
  lemma {:induction false} DealRoundsConserves(s: DealState, r: nat)
    requires DealRounds(s, r).Some?
    ensures Holdings(DealRounds(s, r).value.players) + multiset(DealRounds(s, r).value.deck)
            == Holdings(s.players) + multiset(s.deck)
  {
    if r > 0 {
      var t := DealRounds(s, r - 1).value;
      assert DealRounds(s, r).value == DealRound(t);
      DealRoundsConserves(s, r - 1);
      DealRoundConserves(t);
    }
  }

  /** What a completed deal of r rounds from s to u amounts to: the shape of
      DealRoundsShape and the conservation of DealRoundsConserves. */
  lemma DealRoundsFacts(s: DealState, r: nat, u: DealState)
    requires DealRounds(s, r) == Some(u)
    ensures r * |s.players| <= |s.deck| && u.deck == s.deck[r * |s.players|..]
    ensures |u.players| == |s.players|
    ensures forall i :: 0 <= i < |u.players| ==>
              u.players[i] == s.players[i].(hand := s.players[i].hand + DealtTo(s.deck, |s.players|, i, r))
    ensures Holdings(u.players) + multiset(u.deck) == Holdings(s.players) + multiset(s.deck)
  {
    DealRoundsShape(s, r);
    DealRoundsConserves(s, r);
  }
}
