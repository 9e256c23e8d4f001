/** The redraw of requested cards, as a function of the hand and the deck. */
module Redrawing {
  import opened Cards
  import opened Options

  /** The state a redraw works on: the target hand, the deck, and (for the
      proofs) the cards overwritten so far, in the order they were overwritten. */
  datatype Table = Table(hand: seq<Card>, deck: seq<Card>, discarded: seq<Card>)

  /** The inner loop for one requested card c, from hand position `from` on:
      every position whose card equals c at the moment it is visited is
      overwritten with a card dealt from the front of the deck. None when a
      deal finds the deck empty (the source traps there). */
  function Sweep(c: Card, t: Table, from: nat): (r: Option<Table>)
    requires from <= |t.hand|
    ensures r.Some? ==> |r.value.hand| == |t.hand| && |r.value.deck| <= |t.deck|
    decreases |t.hand| - from
  {
    if from == |t.hand| then Some(t)
    else if CardEq(c, t.hand[from]) then
      if t.deck == [] then None
      else Sweep(c, Table(t.hand[from := t.deck[0]], t.deck[1..], t.discarded + [t.hand[from]]), from + 1)
    else Sweep(c, t, from + 1)
  }

  /** The outer loop: a sweep of the whole hand for each requested card in order. */
  function RedrawAll(cards: seq<Card>, t: Table): (r: Option<Table>)
    ensures r.Some? ==> |r.value.hand| == |t.hand| && |r.value.deck| <= |t.deck|
  {
    if cards == [] then Some(t)
    else match Sweep(cards[0], t, 0)
      case None => None
      case Some(u) => RedrawAll(cards[1..], u)
  }

  /** Card c is one of the requested cards. */
  predicate Requested(c: Card, cards: seq<Card>)
  {
    exists k :: 0 <= k < |cards| && CardEq(cards[k], c)
  }

  /** How u follows from t by dealing d = |t.deck| - |u.deck| cards: the hand
      keeps its length, the deck loses exactly its first d cards, d cards are
      added to the discards and no card is created or lost. */
  ghost predicate DrawsFromFront(t: Table, u: Table)
  {
    && |u.hand| == |t.hand|
    && |u.deck| <= |t.deck|
    && u.deck == t.deck[|t.deck| - |u.deck|..]
    && |u.discarded| == |t.discarded| + (|t.deck| - |u.deck|)
    && u.discarded[..|t.discarded|] == t.discarded
    && multiset(u.hand) + multiset(u.deck) + multiset(u.discarded)
       == multiset(t.hand) + multiset(t.deck) + multiset(t.discarded)
  }

  /** Every card added to the discards equals a requested card, and every
      position that held no requested card still holds its card. */
  ghost predicate ReplacesOnlyRequested(t: Table, u: Table, cards: seq<Card>)
    requires |u.hand| == |t.hand| && |t.discarded| <= |u.discarded|
  {
    && (forall k :: |t.discarded| <= k < |u.discarded| ==> Requested(u.discarded[k], cards))
    && (forall i :: 0 <= i < |t.hand| && !Requested(t.hand[i], cards) ==> u.hand[i] == t.hand[i])
  }

  /** Every card of u's hand is the card t's hand held there, or one of the
      cards dealt from t's deck. */
  ghost predicate HandFromDeal(t: Table, u: Table)
    requires |u.hand| == |t.hand| && |u.deck| <= |t.deck|
  {
    forall i :: 0 <= i < |t.hand| ==> u.hand[i] == t.hand[i] || u.hand[i] in t.deck[..|t.deck| - |u.deck|]
  }

  /** The three relations above together. */
  ghost predicate Redraws(t: Table, u: Table, cards: seq<Card>)
  {
    && DrawsFromFront(t, u)
    && ReplacesOnlyRequested(t, u, cards)
    && HandFromDeal(t, u)
  }

  lemma RedrawsRefl(t: Table, cards: seq<Card>)
    ensures Redraws(t, t, cards)
  {
    assert t.deck[|t.deck| - |t.deck|..] == t.deck;
  }

  /** One overwrite of position `at`, whose card is requested, with the top card of the deck. */
  lemma RedrawsOneDeal(t: Table, at: nat, cards: seq<Card>)
    requires at < |t.hand| && t.deck != [] && Requested(t.hand[at], cards)
    ensures Redraws(t, Table(t.hand[at := t.deck[0]], t.deck[1..], t.discarded + [t.hand[at]]), cards)
  {
    var u := Table(t.hand[at := t.deck[0]], t.deck[1..], t.discarded + [t.hand[at]]);
    assert t.deck == [t.deck[0]] + t.deck[1..];
    assert multiset(u.hand) == multiset(t.hand) - multiset{t.hand[at]} + multiset{t.deck[0]};
    assert t.deck[..1] == [t.deck[0]];
  }

  lemma DrawsFromFrontTrans(t: Table, u: Table, v: Table)
    requires DrawsFromFront(t, u) && DrawsFromFront(u, v)
    ensures DrawsFromFront(t, v)
  {
    var d1 := |t.deck| - |u.deck|;
    var d2 := |u.deck| - |v.deck|;
    assert v.deck == t.deck[d1 + d2..];
    assert v.discarded[..|t.discarded|] == v.discarded[..|u.discarded|][..|t.discarded|];
  }

  lemma ReplacesOnlyRequestedTrans(t: Table, u: Table, v: Table, cards1: seq<Card>, cards2: seq<Card>, cards: seq<Card>)
    requires DrawsFromFront(t, u) && DrawsFromFront(u, v)
    requires ReplacesOnlyRequested(t, u, cards1) && ReplacesOnlyRequested(u, v, cards2)
    requires forall c :: Requested(c, cards1) ==> Requested(c, cards)
    requires forall c :: Requested(c, cards2) ==> Requested(c, cards)
    ensures ReplacesOnlyRequested(t, v, cards)
  {
    forall k | |t.discarded| <= k < |v.discarded|
      ensures Requested(v.discarded[k], cards)
    {
      if k < |u.discarded| {
        assert v.discarded[k] == v.discarded[..|u.discarded|][k];
      }
    }
  }

  lemma HandFromDealTrans(t: Table, u: Table, v: Table)
    requires DrawsFromFront(t, u) && DrawsFromFront(u, v)
    requires HandFromDeal(t, u) && HandFromDeal(u, v)
    ensures HandFromDeal(t, v)
  {
    var d1 := |t.deck| - |u.deck|;
    var d2 := |u.deck| - |v.deck|;
    forall i | 0 <= i < |t.hand|
      ensures v.hand[i] == t.hand[i] || v.hand[i] in t.deck[..d1 + d2]
    {
      if v.hand[i] != u.hand[i] {
        assert v.hand[i] in u.deck[..d2];
        var k :| 0 <= k < d2 && u.deck[..d2][k] == v.hand[i];
        assert u.deck[k] == t.deck[d1 + k];
        assert t.deck[..d1 + d2][d1 + k] == v.hand[i];
      } else if u.hand[i] != t.hand[i] {
        assert u.hand[i] in t.deck[..d1];
        var k :| 0 <= k < d1 && t.deck[..d1][k] == u.hand[i];
        assert t.deck[..d1 + d2][k] == v.hand[i];
      }
    }
  }

  /** Redraws composes, the request list growing by the other's requests. */
  lemma RedrawsTrans(t: Table, u: Table, v: Table, cards1: seq<Card>, cards2: seq<Card>, cards: seq<Card>)
    requires Redraws(t, u, cards1) && Redraws(u, v, cards2)
    requires forall c :: Requested(c, cards1) ==> Requested(c, cards)
    requires forall c :: Requested(c, cards2) ==> Requested(c, cards)
    ensures Redraws(t, v, cards)
  {
    DrawsFromFrontTrans(t, u, v);
    ReplacesOnlyRequestedTrans(t, u, v, cards1, cards2, cards);
    HandFromDealTrans(t, u, v);
  }

  /** A card requested by the head or by the tail of a request list is requested by the list. */
  lemma RequestedHeadTail(cards: seq<Card>)
    requires cards != []
    ensures forall c :: Requested(c, [cards[0]]) ==> Requested(c, cards)
    ensures forall c :: Requested(c, cards[1..]) ==> Requested(c, cards)
  {
    forall c | Requested(c, [cards[0]]) ensures Requested(c, cards) {
      assert CardEq(cards[0], c);
    }
    forall c | Requested(c, cards[1..]) ensures Requested(c, cards) {
      var k :| 0 <= k < |cards[1..]| && CardEq(cards[1..][k], c);
      assert cards[k + 1] == cards[1..][k];
    }
  }

  /** A sweep redraws only cards equal to its requested card. */
  lemma {:induction false} SweepRedraws(c: Card, t: Table, from: nat, u: Table)
    requires from <= |t.hand| && Sweep(c, t, from) == Some(u)
    ensures Redraws(t, u, [c])
    ensures forall i :: 0 <= i < from ==> u.hand[i] == t.hand[i]
    decreases |t.hand| - from
  {
    if from == |t.hand| {
      RedrawsRefl(t, [c]);
    } else if CardEq(c, t.hand[from]) {
      var t1 := Table(t.hand[from := t.deck[0]], t.deck[1..], t.discarded + [t.hand[from]]);
      assert [c][0] == c;
      assert Requested(t.hand[from], [c]);
      RedrawsOneDeal(t, from, [c]);
      SweepRedraws(c, t1, from + 1, u);
      RedrawsTrans(t, t1, u, [c], [c], [c]);
    } else {
      SweepRedraws(c, t, from + 1, u);
    }
  }

  /** Redraw: the hand keeps its length, the deck loses exactly as many
      cards from its front as were overwritten, no card is created or lost,
      only cards equal to a requested card are overwritten, and every other
      position is left as it was. */
  lemma {:induction false} RedrawAllRedraws(cards: seq<Card>, t: Table, u: Table)
    requires RedrawAll(cards, t) == Some(u)
    ensures Redraws(t, u, cards)
  {
    if cards == [] {
      RedrawsRefl(t, cards);
    } else {
      var t1 := Sweep(cards[0], t, 0).value;
      SweepRedraws(cards[0], t, 0, t1);
      RedrawAllRedraws(cards[1..], t1, u);
      RequestedHeadTail(cards);
      RedrawsTrans(t, t1, u, [cards[0]], cards[1..], cards);
    }
  }

  /** Requested by a non-empty list means equal to its head or requested by its tail. */
  lemma RequestedCons(x: Card, cards: seq<Card>)
    requires cards != []
    ensures Requested(x, cards) <==> CardEq(cards[0], x) || Requested(x, cards[1..])
  {
    RequestedHeadTail(cards);
    if Requested(x, cards) && !CardEq(cards[0], x) {
      var k :| 0 <= k < |cards| && CardEq(cards[k], x);
      assert cards[1..][k - 1] == cards[k];
    }
    if CardEq(cards[0], x) {
      assert [cards[0]][0] == cards[0];
      assert Requested(x, [cards[0]]);
    }
  }

  /** Requested by a one-card list means equal to that card. */
  lemma RequestedSingle(x: Card, c: Card)
    ensures Requested(x, [c]) <==> CardEq(c, x)
  {
    assert [c][0] == c;
  }

  /** A sweep for c over a deck holding no card equal to c leaves no card
      equal to c at or after the position it started from. */
  lemma {:induction false} SweepClears(c: Card, t: Table, from: nat, u: Table)
    requires from <= |t.hand| && Sweep(c, t, from) == Some(u)
    requires forall d :: d in t.deck ==> !CardEq(c, d)
    ensures |u.hand| == |t.hand|
    ensures forall i :: from <= i < |u.hand| ==> !CardEq(c, u.hand[i])
    decreases |t.hand| - from
  {
    SweepRedraws(c, t, from, u);
    if from < |t.hand| {
      if CardEq(c, t.hand[from]) {
        var t1 := Table(t.hand[from := t.deck[0]], t.deck[1..], t.discarded + [t.hand[from]]);
        assert t.deck[0] in t.deck;
        SweepClears(c, t1, from + 1, u);
        SweepRedraws(c, t1, from + 1, u);
        assert u.hand[from] == t.deck[0];
      } else {
        SweepClears(c, t, from + 1, u);
      }
    }
  }

  /** When no deck card equals a requested card, a redraw leaves no
      requested card in the hand. */
  lemma {:induction false} RedrawClears(cards: seq<Card>, t: Table, u: Table)
    requires RedrawAll(cards, t) == Some(u)
    requires forall d :: d in t.deck ==> !Requested(d, cards)
    ensures |u.hand| == |t.hand|
    ensures forall i :: 0 <= i < |u.hand| ==> !Requested(u.hand[i], cards)
  {
    RedrawAllRedraws(cards, t, u);
    if cards != [] {
      var c, rest := cards[0], cards[1..];
      var t1 := Sweep(c, t, 0).value;
      forall d | d in t.deck ensures !CardEq(c, d) && !Requested(d, rest) {
        RequestedCons(d, cards);
      }
      SweepClears(c, t, 0, t1);
      SweepRedraws(c, t, 0, t1);
      forall d | d in t1.deck ensures d in t.deck {
        var k :| 0 <= k < |t1.deck| && t1.deck[k] == d;
        assert t.deck[|t.deck| - |t1.deck| + k] == d;
      }
      RedrawClears(rest, t1, u);
      RedrawAllRedraws(rest, t1, u);
      forall i | 0 <= i < |u.hand| ensures !Requested(u.hand[i], cards) {
        RequestedCons(u.hand[i], cards);
        if u.hand[i] != t1.hand[i] {
          var d := |t1.deck| - |u.deck|;
          assert u.hand[i] in t1.deck[..d];
          var k :| 0 <= k < d && t1.deck[..d][k] == u.hand[i];
          assert t1.deck[k] in t1.deck;
        }
      }
    }
  }

  /** Number of positions from `from` on whose card is requested. */
  function MatchesFrom(hand: seq<Card>, cards: seq<Card>, from: nat): nat
    requires from <= |hand|
    decreases |hand| - from
  {
    if from == |hand| then 0
    else (if Requested(hand[from], cards) then 1 else 0) + MatchesFrom(hand, cards, from + 1)
  }

  /** Counts of two hands, position by position, add up when their indicators do. */
  lemma {:induction false} MatchesFromSplit(h: seq<Card>, cards: seq<Card>, h1: seq<Card>, cards1: seq<Card>,
                                            h2: seq<Card>, cards2: seq<Card>, from: nat)
    requires |h1| == |h| && |h2| == |h| && from <= |h|
    requires forall i :: from <= i < |h| ==>
      (if Requested(h[i], cards) then 1 else 0)
      == (if Requested(h1[i], cards1) then 1 else 0) + (if Requested(h2[i], cards2) then 1 else 0)
    ensures MatchesFrom(h, cards, from) == MatchesFrom(h1, cards1, from) + MatchesFrom(h2, cards2, from)
    decreases |h| - from
  {
    if from < |h| {
      MatchesFromSplit(h, cards, h1, cards1, h2, cards2, from + 1);
    }
  }

  /** Counting from `from` on only looks at positions from `from` on. */
  lemma {:induction false} MatchesFromSame(h: seq<Card>, h1: seq<Card>, cards: seq<Card>, from: nat)
    requires |h1| == |h| && from <= |h|
    requires forall i :: from <= i < |h| ==> h1[i] == h[i]
    ensures MatchesFrom(h1, cards, from) == MatchesFrom(h, cards, from)
    decreases |h| - from
  {
    if from < |h| {
      MatchesFromSame(h, h1, cards, from + 1);
    }
  }

  /** A sweep for c succeeds exactly when the deck holds at least as many
      cards as the hand holds cards equal to c (from `from` on), and then it
      deals exactly that many: each position is visited once, before it is
      overwritten, so a card dealt into it is never compared again. */
  lemma {:induction false} SweepDealsMatches(c: Card, t: Table, from: nat)
    requires from <= |t.hand|
    ensures Sweep(c, t, from).Some? <==> MatchesFrom(t.hand, [c], from) <= |t.deck|
    ensures Sweep(c, t, from).Some? ==> |t.deck| - |Sweep(c, t, from).value.deck| == MatchesFrom(t.hand, [c], from)
    decreases |t.hand| - from
  {
    if from < |t.hand| {
      RequestedSingle(t.hand[from], c);
      if CardEq(c, t.hand[from]) {
        if t.deck != [] {
          var t1 := Table(t.hand[from := t.deck[0]], t.deck[1..], t.discarded + [t.hand[from]]);
          SweepDealsMatches(c, t1, from + 1);
          MatchesFromSame(t.hand, t1.hand, [c], from + 1);
        }
      } else {
        SweepDealsMatches(c, t, from + 1);
      }
    }
  }

  /** With no deck card equal to a requested card, a redraw succeeds
      exactly when the deck holds at least as many cards as the hand has
      positions holding a requested card, and then it deals exactly that
      many cards: one per such position. */
  lemma {:induction false} RedrawDealsMatches(cards: seq<Card>, t: Table)
    requires forall d :: d in t.deck ==> !Requested(d, cards)
    ensures RedrawAll(cards, t).Some? <==> MatchesFrom(t.hand, cards, 0) <= |t.deck|
    ensures RedrawAll(cards, t).Some? ==> |t.deck| - |RedrawAll(cards, t).value.deck| == MatchesFrom(t.hand, cards, 0)
  {
    if cards == [] {
      MatchesFromNone(t.hand, 0);
    } else {
      var c, rest := cards[0], cards[1..];
      forall d | d in t.deck ensures !CardEq(c, d) && !Requested(d, rest) {
        RequestedCons(d, cards);
      }
      SweepDealsMatches(c, t, 0);
      RequestedHeadTail(cards);
      MatchesFromMono(t.hand, cards, [c], 0);
      if Sweep(c, t, 0).Some? {
        var t1 := Sweep(c, t, 0).value;
        SweepClears(c, t, 0, t1);
        SweepRedraws(c, t, 0, t1);
        forall d | d in t1.deck ensures d in t.deck {
          var k :| 0 <= k < |t1.deck| && t1.deck[k] == d;
          assert t.deck[|t.deck| - |t1.deck| + k] == d;
        }
        RedrawDealsMatches(rest, t1);
        forall i | 0 <= i < |t.hand|
          ensures (if Requested(t.hand[i], cards) then 1 else 0)
                  == (if Requested(t.hand[i], [c]) then 1 else 0) + (if Requested(t1.hand[i], rest) then 1 else 0)
        {
          RequestedCons(t.hand[i], cards);
          RequestedSingle(t.hand[i], c);
          if CardEq(c, t.hand[i]) {
            RequestedSingle(t1.hand[i], c);
            var d := |t.deck| - |t1.deck|;
            assert t1.hand[i] in t.deck[..d];
            var k :| 0 <= k < d && t.deck[..d][k] == t1.hand[i];
            assert t.deck[k] in t.deck;
          }
        }
        MatchesFromSplit(t.hand, cards, t.hand, [c], t1.hand, rest, 0);
      }
    }
  }

  /** Nothing is requested by an empty list. */
  lemma {:induction false} MatchesFromNone(h: seq<Card>, from: nat)
    requires from <= |h|
    ensures MatchesFrom(h, [], from) == 0
    decreases |h| - from
  {
    if from < |h| {
      MatchesFromNone(h, from + 1);
    }
  }

  /** A position holding the head request also counts for the whole list. */
  lemma {:induction false} MatchesFromMono(h: seq<Card>, cards: seq<Card>, sub: seq<Card>, from: nat)
    requires from <= |h|
    requires forall c :: Requested(c, sub) ==> Requested(c, cards)
    ensures MatchesFrom(h, sub, from) <= MatchesFrom(h, cards, from)
    decreases |h| - from
  {
    if from < |h| {
      MatchesFromMono(h, cards, sub, from + 1);
    }
  }
}
