/** Players and the cards they hold together. */
module Players {
  import opened Cards

  /** A player: an id fixed at construction and a hand in deal order. */
  datatype Player = Player(id: int, hand: seq<Card>)

  /** The roster the game constructor builds: ids 0 .. n - 1, empty hands. */
  function Roster(n: nat): (ps: seq<Player>)
    ensures |ps| == n
    ensures forall i :: 0 <= i < n ==> ps[i].id == i && ps[i].hand == []
  {
    if n == 0 then [] else Roster(n - 1) + [Player(n - 1, [])]
  }

  /** Every card in every player's hand, with repetitions. */
  function Holdings(ps: seq<Player>): multiset<Card>
  {
    if ps == [] then multiset{} else multiset(ps[0].hand) + Holdings(ps[1..])
  }

  /** Replacing one player's hand replaces that hand's cards in the holdings. */
  lemma {:induction false} HoldingsUpdate(ps: seq<Player>, i: nat, h: seq<Card>)
    requires i < |ps|
    ensures Holdings(ps[i := ps[i].(hand := h)]) + multiset(ps[i].hand) == Holdings(ps) + multiset(h)
  {
    if i > 0 {
      var updated := ps[i := ps[i].(hand := h)];
      var rest := ps[1..][i - 1 := ps[1..][i - 1].(hand := h)];
      HoldingsUpdate(ps[1..], i - 1, h);
      assert updated[0] == ps[0];
      assert updated[1..] == rest;
      calc {
        Holdings(updated) + multiset(ps[i].hand);
        multiset(ps[0].hand) + Holdings(rest) + multiset(ps[i].hand);
        multiset(ps[0].hand) + (Holdings(rest) + multiset(ps[1..][i - 1].hand));
        multiset(ps[0].hand) + (Holdings(ps[1..]) + multiset(h));
        Holdings(ps) + multiset(h);
      }
    }
  }
}
