/** The poker-hand scorer as written: a rank-count table, a flush flag that
    only remembers the last card's comparison with the first, a straight
    flag that is always false, and a chain of tests from the highest score
    down. */
module Scoring {
  import opened Cards

  /** The number of cards of the hand with rank r: the value the count
      table holds for r once the whole hand is scanned (absent when 0). */
  function RankCount(hand: seq<Card>, r: Rank): (n: nat)
    ensures n <= |hand|
  {
    if hand == [] then 0
    else RankCount(hand[..|hand| - 1], r) + (if hand[|hand| - 1].rank == r then 1 else 0)
  }

  /** The keys of the count table: the ranks present in the hand. */
  function RanksIn(hand: seq<Card>): set<Rank>
  {
    set i | 0 <= i < |hand| :: hand[i].rank
  }

  /** Some rank of the hand occurs exactly k times (`counts.values.contains(k)`). */
  ghost predicate HasCountOf(hand: seq<Card>, k: int)
  {
    exists r :: r in RanksIn(hand) && RankCount(hand, r) == k
  }

  /** The flush flag as the loop leaves it: every iteration overwrites it,
      so only the comparison of the last card's suit with the first card's
      survives; it stays false for an empty hand. */
  predicate FlushFlag(hand: seq<Card>)
  {
    |hand| > 0 && hand[|hand| - 1].suit == hand[0].suit
  }

  /** The straight flag: every iteration resets it to false. */
  predicate StraightFlag(hand: seq<Card>)
  {
    false
  }

  /** The score the priority chain returns. Because the straight flag is
      never set, the royal flush (52), straight flush (8) and straight (4)
      scores are out of reach. */
  ghost function HandScore(hand: seq<Card>): (score: int)
    ensures score in {0, 1, 2, 3, 5, 6, 7}
  {
    // The source tests isFlush && isStraight && hand[0].rank == .r10; the
    // conjuncts are pure, and the rank test is placed where the index is
    // known to be in range.
    if FlushFlag(hand) && hand[0].rank == R10 && StraightFlag(hand) then 52
    else if FlushFlag(hand) && StraightFlag(hand) then 8
    else if HasCountOf(hand, 4) then 7
    else if HasCountOf(hand, 3) && HasCountOf(hand, 2) then 6
    else if FlushFlag(hand) then 5
    else if StraightFlag(hand) then 4
    else if HasCountOf(hand, 3) then 3
    else if HasCountOf(hand, 2) && |RanksIn(hand)| == 3 then 2
    else if HasCountOf(hand, 2) then 1
    else 0
  }

  /** A rank is counted at least once exactly when some card has it. */
  lemma {:induction false} RankCountPositive(hand: seq<Card>, r: Rank)
    ensures RankCount(hand, r) > 0 <==> r in RanksIn(hand)
  {
    if hand != [] {
      var front := hand[..|hand| - 1];
      RankCountPositive(front, r);
      assert RanksIn(hand) == RanksIn(front) + {hand[|hand| - 1].rank} by {
        forall x | x in RanksIn(hand) ensures x in RanksIn(front) + {hand[|hand| - 1].rank} {
          var i :| 0 <= i < |hand| && hand[i].rank == x;
          if i < |hand| - 1 {
            assert front[i] == hand[i];
          }
        }
        forall x | x in RanksIn(front) ensures x in RanksIn(hand) {
          var i :| 0 <= i < |front| && front[i].rank == x;
          assert hand[i] == front[i];
        }
      }
    }
  }

  /** Appending a card adds its rank to the ranks present. */
  lemma RanksInAppend(hand: seq<Card>, c: Card)
    ensures RanksIn(hand + [c]) == RanksIn(hand) + {c.rank}
  {
    var longer := hand + [c];
    assert longer[|hand|] == c;
    forall x | x in RanksIn(longer) ensures x in RanksIn(hand) + {c.rank} {
      var i :| 0 <= i < |longer| && longer[i].rank == x;
      if i < |hand| {
        assert longer[i] == hand[i];
      }
    }
    forall x | x in RanksIn(hand) ensures x in RanksIn(longer) {
      var i :| 0 <= i < |hand| && hand[i].rank == x;
      assert longer[i] == hand[i];
    }
  }

  /** Appending a card adds one to its rank's count and leaves the others. */
  lemma RankCountAppend(hand: seq<Card>, c: Card, r: Rank)
    ensures RankCount(hand + [c], r) == RankCount(hand, r) + (if c.rank == r then 1 else 0)
  {
    assert (hand + [c])[..|hand|] == hand;
  }

  /** Sum of the counts of the listed ranks. */
  function SumCounts(hand: seq<Card>, ranks: seq<Rank>): nat
  {
    if ranks == [] then 0 else RankCount(hand, ranks[0]) + SumCounts(hand, ranks[1..])
  }

  /** How often r is listed. */
  function Occurrences(ranks: seq<Rank>, r: Rank): nat
  {
    if ranks == [] then 0 else (if ranks[0] == r then 1 else 0) + Occurrences(ranks[1..], r)
  }

  lemma {:induction false} SumCountsAppend(hand: seq<Card>, c: Card, ranks: seq<Rank>)
    ensures SumCounts(hand + [c], ranks) == SumCounts(hand, ranks) + Occurrences(ranks, c.rank)
  {
    if ranks != [] {
      RankCountAppend(hand, c, ranks[0]);
      SumCountsAppend(hand, c, ranks[1..]);
    }
  }

  lemma {:induction false} OccurrencesNone(ranks: seq<Rank>, r: Rank)
    requires forall j :: 0 <= j < |ranks| ==> ranks[j] != r
    ensures Occurrences(ranks, r) == 0
  {
    if ranks != [] {
      OccurrencesNone(ranks[1..], r);
    }
  }

  lemma {:induction false} OccurrencesUnique(ranks: seq<Rank>, r: Rank, i: nat)
    requires i < |ranks| && ranks[i] == r
    requires forall j :: 0 <= j < |ranks| && j != i ==> ranks[j] != r
    ensures Occurrences(ranks, r) == 1
  {
    if i == 0 {
      OccurrencesNone(ranks[1..], r);
    } else {
      OccurrencesUnique(ranks[1..], r, i - 1);
    }
  }

  /** Every rank is listed exactly once in allCases. */
  lemma AllRanksOnce(r: Rank)
    ensures Occurrences(AllRanks, r) == 1
  {
    forall j | 0 <= j < |AllRanks| && j != RawValue(r) ensures AllRanks[j] != r {
      RawValueOfRank(j);
    }
    OccurrencesUnique(AllRanks, r, RawValue(r));
  }

  /** The counts of all thirteen ranks add up to the number of cards. */
  lemma {:induction false} RankCountsSumToLength(hand: seq<Card>)
    ensures SumCounts(hand, AllRanks) == |hand|
  {
    if hand == [] {
      SumCountsEmpty(AllRanks);
    } else {
      var front, last := hand[..|hand| - 1], hand[|hand| - 1];
      assert hand == front + [last];
      RankCountsSumToLength(front);
      SumCountsAppend(front, last, AllRanks);
      AllRanksOnce(last.rank);
    }
  }

  lemma {:induction false} SumCountsEmpty(ranks: seq<Rank>)
    ensures SumCounts([], ranks) == 0
  {
    if ranks != [] {
      SumCountsEmpty(ranks[1..]);
    }
  }

  /** Some rank occurs exactly k times in the hand, for k > 0 stated
      without the key set of the table. */
  lemma HasCountOfIff(hand: seq<Card>, k: int)
    requires k > 0
    ensures HasCountOf(hand, k) <==> exists r :: RankCount(hand, r) == k
  {
    if exists r :: RankCount(hand, r) == k {
      var r :| RankCount(hand, r) == k;
      RankCountPositive(hand, r);
    }
  }

  /** The decision table of the scorer in terms of rank counts: for each
      score that can be returned, the condition under which it is. */
  lemma ScoreCategories(hand: seq<Card>)
    ensures HandScore(hand) == 7 <==> (exists r :: RankCount(hand, r) == 4)
    ensures HandScore(hand) == 6 <==>
      (forall r :: RankCount(hand, r) != 4) && (exists r :: RankCount(hand, r) == 3) && (exists r :: RankCount(hand, r) == 2)
    ensures HandScore(hand) == 5 <==>
      (forall r :: RankCount(hand, r) != 4) && !((exists r :: RankCount(hand, r) == 3) && (exists r :: RankCount(hand, r) == 2))
      && FlushFlag(hand)
    ensures HandScore(hand) == 3 <==>
      !FlushFlag(hand) && (forall r :: RankCount(hand, r) != 4 && RankCount(hand, r) != 2) && (exists r :: RankCount(hand, r) == 3)
    ensures HandScore(hand) == 2 <==>
      !FlushFlag(hand) && (forall r :: RankCount(hand, r) != 4 && RankCount(hand, r) != 3) && (exists r :: RankCount(hand, r) == 2)
      && |RanksIn(hand)| == 3
    ensures HandScore(hand) == 1 <==>
      !FlushFlag(hand) && (forall r :: RankCount(hand, r) != 4 && RankCount(hand, r) != 3) && (exists r :: RankCount(hand, r) == 2)
      && |RanksIn(hand)| != 3
    ensures HandScore(hand) == 0 <==>
      !FlushFlag(hand) && (forall r :: RankCount(hand, r) != 4 && RankCount(hand, r) != 3 && RankCount(hand, r) != 2)
  {
    HasCountOfIff(hand, 4);
    HasCountOfIff(hand, 3);
    HasCountOfIff(hand, 2);
  }

  /** Counting the cards of a hand whose rank lies in a set. */
  function CountIn(hand: seq<Card>, ranks: set<Rank>): (n: nat)
    ensures n <= |hand|
  {
    if hand == [] then 0
    else CountIn(hand[..|hand| - 1], ranks) + (if hand[|hand| - 1].rank in ranks then 1 else 0)
  }

  lemma {:induction false} CountInSingle(hand: seq<Card>, r: Rank)
    ensures CountIn(hand, {r}) == RankCount(hand, r)
  {
    if hand != [] {
      CountInSingle(hand[..|hand| - 1], r);
    }
  }

  lemma {:induction false} CountInUnion(hand: seq<Card>, a: set<Rank>, b: set<Rank>)
    requires a !! b
    ensures CountIn(hand, a + b) == CountIn(hand, a) + CountIn(hand, b)
  {
    if hand != [] {
      CountInUnion(hand[..|hand| - 1], a, b);
    }
  }

  /** Every card has a rank in a superset of the ranks present. */
  lemma {:induction false} CountInAll(hand: seq<Card>, ranks: set<Rank>)
    requires RanksIn(hand) <= ranks
    ensures CountIn(hand, ranks) == |hand|
  {
    if hand != [] {
      var front := hand[..|hand| - 1];
      assert hand[|hand| - 1].rank in RanksIn(hand);
      forall x | x in RanksIn(front) ensures x in ranks {
        var i :| 0 <= i < |front| && front[i].rank == x;
        assert hand[i] == front[i];
      }
      CountInAll(front, ranks);
    }
  }

  /** Two or three distinct ranks: the counts of the set are the sum of theirs. */
  lemma CountInPair(hand: seq<Card>, a: Rank, b: Rank)
    requires a != b
    ensures CountIn(hand, {a, b}) == RankCount(hand, a) + RankCount(hand, b)
  {
    CountInUnion(hand, {a}, {b});
    CountInSingle(hand, a);
    CountInSingle(hand, b);
    assert {a} + {b} == {a, b};
  }

  lemma CountInTriple(hand: seq<Card>, a: Rank, b: Rank, c: Rank)
    requires a != b && a != c && b != c
    ensures CountIn(hand, {a, b, c}) == RankCount(hand, a) + RankCount(hand, b) + RankCount(hand, c)
  {
    CountInPair(hand, a, b);
    CountInUnion(hand, {a, b}, {c});
    CountInSingle(hand, c);
    assert {a, b} + {c} == {a, b, c};
  }

  lemma CountInQuad(hand: seq<Card>, a: Rank, b: Rank, c: Rank, d: Rank)
    requires a != b && a != c && b != c && d != a && d != b && d != c
    ensures CountIn(hand, {a, b, c, d}) == RankCount(hand, a) + RankCount(hand, b) + RankCount(hand, c) + RankCount(hand, d)
  {
    CountInTriple(hand, a, b, c);
    CountInUnion(hand, {a, b, c}, {d});
    CountInSingle(hand, d);
    assert {a, b, c} + {d} == {a, b, c, d};
  }

  /** A hand of five cards scored 2 holds two different ranks twice each. */
  lemma FiveCardScoreTwoHasTwoPairs(hand: seq<Card>)
    requires |hand| == 5 && HandScore(hand) == 2
    ensures !FlushFlag(hand)
    ensures exists a, b :: a != b && RankCount(hand, a) == 2 && RankCount(hand, b) == 2
  {
    HasCountOfIff(hand, 4);
    HasCountOfIff(hand, 3);
    HasCountOfIff(hand, 2);
    var present := RanksIn(hand);
    CountInAll(hand, present);
    var a :| RankCount(hand, a) == 2;
    RankCountPositive(hand, a);
    assert |present - {a}| == 2;
    var b :| b in present - {a};
    assert |present - {a} - {b}| == 1;
    var c :| c in present - {a} - {b};
    assert |present - {a} - {b} - {c}| == 0;
    assert present == {a, b, c} by {
      assert present - {a} - {b} - {c} == {};
    }
    CountInTriple(hand, a, b, c);
    RankCountPositive(hand, b);
    RankCountPositive(hand, c);
    var other := if RankCount(hand, b) == 2 then b else c;
    assert a != other && RankCount(hand, other) == 2;
  }

  /** Five cards with two pairs leave room for no rank three times. */
  lemma FiveCardTwoPairsNoTrips(hand: seq<Card>, a: Rank, b: Rank)
    requires |hand| == 5
    requires a != b && RankCount(hand, a) == 2 && RankCount(hand, b) == 2
    ensures forall r :: RankCount(hand, r) < 3
  {
    forall r ensures RankCount(hand, r) < 3 {
      if r != a && r != b {
        CountInTriple(hand, a, b, r);
      }
    }
  }

  /** Five cards with two pairs hold exactly three ranks. */
  lemma FiveCardTwoPairsThreeRanks(hand: seq<Card>, a: Rank, b: Rank)
    requires |hand| == 5
    requires a != b && RankCount(hand, a) == 2 && RankCount(hand, b) == 2
    ensures |RanksIn(hand)| == 3
  {
    var present := RanksIn(hand);
    CountInAll(hand, present);
    RankCountPositive(hand, a);
    RankCountPositive(hand, b);
    CountInPair(hand, a, b);
    if present <= {a, b} {
      CountInAll(hand, {a, b});
    }
    var c :| c in present && c != a && c != b;
    RankCountPositive(hand, c);
    forall d | d in present ensures d in {a, b, c} {
      if d !in {a, b, c} {
        RankCountPositive(hand, d);
        CountInQuad(hand, a, b, c, d);
      }
    }
    assert present == {a, b, c};
  }

  /** A hand of five cards with two different ranks twice each and the
      flush flag clear is scored 2. */
  lemma FiveCardTwoPairsScoreTwo(hand: seq<Card>, a: Rank, b: Rank)
    requires |hand| == 5 && !FlushFlag(hand)
    requires a != b && RankCount(hand, a) == 2 && RankCount(hand, b) == 2
    ensures HandScore(hand) == 2
  {
    FiveCardTwoPairsNoTrips(hand, a, b);
    FiveCardTwoPairsThreeRanks(hand, a, b);
    RankCountPositive(hand, a);
    assert HasCountOf(hand, 2);
  }

  /** The ranks of the hand's cards, in hand order. */
  function Ranks(hand: seq<Card>): (rs: seq<Rank>)
    ensures |rs| == |hand|
    ensures forall i :: 0 <= i < |hand| ==> rs[i] == hand[i].rank
  {
    seq(|hand|, i requires 0 <= i < |hand| => hand[i].rank)
  }

  /** The count table holds, for each rank, its multiplicity among the ranks of the hand. */
  lemma {:induction false} RankCountIsMultiplicity(hand: seq<Card>, r: Rank)
    ensures RankCount(hand, r) == multiset(Ranks(hand))[r]
  {
    if hand != [] {
      var front := hand[..|hand| - 1];
      RankCountIsMultiplicity(front, r);
      assert Ranks(hand) == Ranks(front) + [hand[|hand| - 1].rank];
    }
  }

  /** Counting over two pieces of a hand adds up. */
  lemma {:induction false} RankCountConcat(a: seq<Card>, b: seq<Card>, r: Rank)
    ensures RankCount(a + b, r) == RankCount(a, r) + RankCount(b, r)
  {
    if b == [] {
      assert a + b == a;
    } else {
      var front := b[..|b| - 1];
      RankCountConcat(a, front, r);
      assert (a + b)[..|a + b| - 1] == a + front;
    }
  }

  /** Taking card j out of a hand takes one off its rank's count. */
  lemma RankCountRemove(b: seq<Card>, j: nat, r: Rank)
    requires j < |b|
    ensures RankCount(b, r) == RankCount(b[..j] + b[j + 1..], r) + (if b[j].rank == r then 1 else 0)
  {
    assert b == (b[..j] + [b[j]]) + b[j + 1..];
    RankCountConcat(b[..j] + [b[j]], b[j + 1..], r);
    RankCountAppend(b[..j], b[j], r);
    RankCountConcat(b[..j], b[j + 1..], r);
  }

  lemma MultisetRemove(a: seq<Card>, b: seq<Card>, j: nat)
    requires multiset(a) == multiset(b) && a != [] && j < |b| && b[j] == a[|a| - 1]
    ensures multiset(a[..|a| - 1]) == multiset(b[..j] + b[j + 1..])
  {
    var last := a[|a| - 1];
    assert a == a[..|a| - 1] + [last];
    assert b == b[..j] + [last] + b[j + 1..];
    assert multiset(b) == multiset(b[..j] + b[j + 1..]) + multiset{last};
    assert multiset(a) == multiset(a[..|a| - 1]) + multiset{last};
    assert multiset(a[..|a| - 1]) == multiset(a) - multiset{last} == multiset(b[..j] + b[j + 1..]);
  }

  /** The count table does not depend on the order of the cards. */
  lemma {:induction false} RankCountPermutation(a: seq<Card>, b: seq<Card>, r: Rank)
    requires multiset(a) == multiset(b)
    ensures RankCount(a, r) == RankCount(b, r)
    decreases |a|
  {
    if a == [] {
      assert |multiset(b)| == 0;
    } else {
      var front, last := a[..|a| - 1], a[|a| - 1];
      assert last in multiset(b) by {
        assert a == front + [last];
      }
      var j :| 0 <= j < |b| && b[j] == last;
      MultisetRemove(a, b, j);
      RankCountPermutation(front, b[..j] + b[j + 1..], r);
      RankCountRemove(b, j, r);
    }
  }

  /** Reordering a hand changes its score only through the flush flag: two
      hands with the same cards and the same flag score the same. */
  lemma ScoreIgnoresOrder(a: seq<Card>, b: seq<Card>)
    requires multiset(a) == multiset(b) && FlushFlag(a) == FlushFlag(b)
    ensures HandScore(a) == HandScore(b)
  {
    forall r ensures RankCount(a, r) == RankCount(b, r) && (r in RanksIn(a) <==> r in RanksIn(b)) {
      RankCountPermutation(a, b, r);
      RankCountPositive(a, r);
      RankCountPositive(b, r);
    }
    assert RanksIn(a) == RanksIn(b);
    HasCountOfIff(a, 4);
    HasCountOfIff(b, 4);
    HasCountOfIff(a, 3);
    HasCountOfIff(b, 3);
    HasCountOfIff(a, 2);
    HasCountOfIff(b, 2);
  }

  /** When no two cards share a rank, no rank is counted twice. */
  lemma {:induction false} DistinctRanksCountOnce(hand: seq<Card>)
    requires forall i, j :: 0 <= i < j < |hand| ==> hand[i].rank != hand[j].rank
    ensures forall r :: RankCount(hand, r) <= 1
  {
    if hand != [] {
      DistinctRanksCountOnce(hand[..|hand| - 1]);
      RankCountPositive(hand[..|hand| - 1], hand[|hand| - 1].rank);
    }
  }

  /** A hand with no rank twice scores 5 or 0, as the flush flag says. */
  lemma DistinctRanksScore(hand: seq<Card>)
    requires forall i, j :: 0 <= i < j < |hand| ==> hand[i].rank != hand[j].rank
    ensures HandScore(hand) == (if FlushFlag(hand) then 5 else 0)
  {
    DistinctRanksCountOnce(hand);
    HasCountOfIff(hand, 4);
    HasCountOfIff(hand, 3);
    HasCountOfIff(hand, 2);
  }

  /** A set of ranks all present bounds the number of distinct ranks from below. */
  lemma SubsetOfRanksIn(hand: seq<Card>, s: set<Rank>)
    requires s <= RanksIn(hand)
    ensures |s| <= |RanksIn(hand)|
  {
    assert RanksIn(hand) == s + (RanksIn(hand) - s);
  }

  /** With the ranks of the hand written out, each count is a multiplicity among them. */
  lemma CountsFromRanks(hand: seq<Card>, rs: seq<Rank>)
    requires Ranks(hand) == rs
    ensures forall r :: RankCount(hand, r) == multiset(rs)[r]
  {
    forall r ensures RankCount(hand, r) == multiset(rs)[r] {
      RankCountIsMultiplicity(hand, r);
    }
  }

  // Worked hands. Cards are written face up, as the deck creates them.

  /** Mixed suits whose last card matches the first card's suit. */
  const MixedSuitsClubEnd: seq<Card> :=
    [Card(true, R2, Clubs), Card(true, R3, Hearts), Card(true, R5, Diamonds), Card(true, R9, Spades), Card(true, RK, Clubs)]
  /** The same cards with the king moved to the front. */
  const MixedSuitsClubFront: seq<Card> :=
    [Card(true, RK, Clubs), Card(true, R2, Clubs), Card(true, R3, Hearts), Card(true, R5, Diamonds), Card(true, R9, Spades)]
  const AllClubs: seq<Card> :=
    [Card(true, R2, Clubs), Card(true, R5, Clubs), Card(true, R7, Clubs), Card(true, R9, Clubs), Card(true, RK, Clubs)]
  const MixedStraight: seq<Card> :=
    [Card(true, R2, Clubs), Card(true, R3, Spades), Card(true, R4, Hearts), Card(true, R5, Diamonds), Card(true, R6, Spades)]
  const RoyalHearts: seq<Card> :=
    [Card(true, R10, Hearts), Card(true, RJ, Hearts), Card(true, RQ, Hearts), Card(true, RK, Hearts), Card(true, RA, Hearts)]

  /** The flush flag is set by every real flush: a non-empty hand of one suit. */
  lemma OneSuitSetsFlushFlag(hand: seq<Card>)
    requires |hand| > 0 && forall i :: 0 <= i < |hand| ==> hand[i].suit == hand[0].suit
    ensures FlushFlag(hand)
  {
  }

  /** The converse fails: the flag is set for a hand of four suits. */
  lemma FlushFlagWithoutFlush()
    ensures FlushFlag(MixedSuitsClubEnd)
    ensures exists i :: 0 <= i < |MixedSuitsClubEnd| && MixedSuitsClubEnd[i].suit != MixedSuitsClubEnd[0].suit
  {
    assert MixedSuitsClubEnd[1].suit != MixedSuitsClubEnd[0].suit;
  }

  /** Five different ranks in four suits score as a flush when the last
      card's suit matches the first's, and the same cards in another order
      score 0: the result depends on the order of the hand. */
  lemma MixedSuitsClubEndScoresFive()
    ensures HandScore(MixedSuitsClubEnd) == 5
  {
    DistinctRanksScore(MixedSuitsClubEnd);
  }

  lemma MixedSuitsClubFrontScoresZero()
    ensures HandScore(MixedSuitsClubFront) == 0
  {
    DistinctRanksScore(MixedSuitsClubFront);
  }

  lemma MixedSuitsSameCards()
    ensures multiset(MixedSuitsClubEnd) == multiset(MixedSuitsClubFront)
  {
    assert MixedSuitsClubFront == [MixedSuitsClubEnd[4]] + MixedSuitsClubEnd[..4];
    assert MixedSuitsClubEnd == MixedSuitsClubEnd[..4] + [MixedSuitsClubEnd[4]];
  }

  lemma MixedSuitsScoreDependsOnOrder()
    ensures multiset(MixedSuitsClubEnd) == multiset(MixedSuitsClubFront)
    ensures HandScore(MixedSuitsClubEnd) == 5
    ensures HandScore(MixedSuitsClubFront) == 0
  {
    MixedSuitsSameCards();
    MixedSuitsClubEndScoresFive();
    MixedSuitsClubFrontScoresZero();
  }


  /** A real flush of five clubs scores 5. */
  lemma AllClubsScoresFive()
    ensures HandScore(AllClubs) == 5
  {
    DistinctRanksScore(AllClubs);
  }

  /** Five consecutive ranks in mixed suits score 0: no straight is found. */
  lemma StraightScoresHighCard()
    ensures HandScore(MixedStraight) == 0
  {
    DistinctRanksScore(MixedStraight);
  }

  /** Ten to ace of hearts scores 5, not the royal 52. */
  lemma RoyalFlushScoresFive()
    ensures HandScore(RoyalHearts) == 5
  {
    DistinctRanksScore(RoyalHearts);
  }

  // The hands below are given by their ranks in order; any suits will do
  // except where the flush flag is named.

  /** Four twos and a five score 7. */
  lemma FourOfAKindScoresSeven(hand: seq<Card>)
    requires Ranks(hand) == [R2, R2, R2, R2, R5]
    ensures HandScore(hand) == 7
  {
    RankCountIsMultiplicity(hand, R2);
    RankCountPositive(hand, R2);
  }

  /** Three threes and two sevens score 6, whatever the flush flag says. */
  lemma FullHouseScoresSix(hand: seq<Card>)
    requires Ranks(hand) == [R3, R3, R3, R7, R7]
    ensures HandScore(hand) == 6
  {
    var rs := [R3, R3, R3, R7, R7];
    assert forall r :: multiset(rs)[r] != 4;
    CountsFromRanks(hand, rs);
    HasCountOfIff(hand, 4);
    HasCountOfIff(hand, 3);
    HasCountOfIff(hand, 2);
    assert RankCount(hand, R3) == 3 && RankCount(hand, R7) == 2;
  }

  /** Three eights, a two and a king score 3 when the flush flag is clear. */
  lemma ThreeOfAKindScoresThree(hand: seq<Card>)
    requires Ranks(hand) == [R8, R8, R8, R2, RK] && !FlushFlag(hand)
    ensures HandScore(hand) == 3
  {
    var rs := [R8, R8, R8, R2, RK];
    assert forall r :: multiset(rs)[r] != 4 && multiset(rs)[r] != 2;
    CountsFromRanks(hand, rs);
    HasCountOfIff(hand, 4);
    HasCountOfIff(hand, 3);
    HasCountOfIff(hand, 2);
    assert RankCount(hand, R8) == 3;
  }

  /** Two fours, two nines and a king score 2 when the flush flag is clear. */
  lemma TwoPairScoresTwo(hand: seq<Card>)
    requires Ranks(hand) == [R4, R4, R9, R9, RK] && !FlushFlag(hand)
    ensures HandScore(hand) == 2
  {
    RankCountIsMultiplicity(hand, R4);
    RankCountIsMultiplicity(hand, R9);
    FiveCardTwoPairsScoreTwo(hand, R4, R9);
  }

  /** The counts of a seven-card hand with two pairs and three singletons. */
  lemma SevenCardTwoPairCounts(hand: seq<Card>)
    requires Ranks(hand) == [R2, R2, R3, R3, R4, R5, R6]
    ensures HasCountOf(hand, 2) && !HasCountOf(hand, 3) && !HasCountOf(hand, 4)
  {
    var rs := [R2, R2, R3, R3, R4, R5, R6];
    assert forall r :: multiset(rs)[r] <= 2;
    CountsFromRanks(hand, rs);
    HasCountOfIff(hand, 4);
    HasCountOfIff(hand, 3);
    HasCountOfIff(hand, 2);
    assert RankCount(hand, R2) == 2;
  }

  /** The same hand shows at least four distinct ranks. */
  lemma SevenCardTwoPairRanks(hand: seq<Card>)
    requires Ranks(hand) == [R2, R2, R3, R3, R4, R5, R6]
    ensures |RanksIn(hand)| >= 4
  {
    assert hand[0].rank == R2 && hand[2].rank == R3 && hand[4].rank == R4 && hand[5].rank == R5;
    assert hand[0].rank in RanksIn(hand) && hand[2].rank in RanksIn(hand);
    assert hand[4].rank in RanksIn(hand) && hand[5].rank in RanksIn(hand);
    SubsetOfRanksIn(hand, {R2, R3, R4, R5});
  }

  /** Two pairs in a seven-card hand score 1, not 2, when the flush flag is
      clear: the two-pair test asks for exactly three distinct ranks, which
      only a five-card hand with two pairs has. */
  lemma SevenCardTwoPairScoresOne(hand: seq<Card>)
    requires Ranks(hand) == [R2, R2, R3, R3, R4, R5, R6] && !FlushFlag(hand)
    ensures HandScore(hand) == 1
  {
    SevenCardTwoPairCounts(hand);
    SevenCardTwoPairRanks(hand);
  }
}
