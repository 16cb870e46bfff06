/**
 * `TexasDealer`: the shuffled pack of one round, from which cards are dealt
 * by swapping the chosen card with the last one and dropping the last slot.
 */
module Dealer {
  import opened Cards

  /** The card at position `n` of the pack as it is built: suit by suit, ranks 2 to Ace within a suit. */
  function PackCard(n: int): (c: PokerCard)
    requires 0 <= n < 52
    ensures ValidCard(c)
    ensures n == c.suit * 13 + c.rank - 2
  {
    PokerCard(n / 13, n % 13 + 2)
  }

  /** The pack holds every card exactly once. */
  lemma PackCardBijective(n: int, m: int, c: PokerCard)
    requires 0 <= n < 52 && 0 <= m < 52
    ensures PackCard(n) == PackCard(m) ==> n == m
    ensures ValidCard(c) ==> 0 <= c.suit * 13 + c.rank - 2 < 52 && PackCard(c.suit * 13 + c.rank - 2) == c
  {
    if ValidCard(c) {
      var k := c.suit * 13 + c.rank - 2;
      assert k / 13 == c.suit && k % 13 == c.rank - 2;
    }
  }

  /** What `rand.Perm(52)` returns: each of 0..51 exactly once. */
  predicate IsPerm(perm: seq<int>)
  {
    && |perm| == 52
    && (forall i :: 0 <= i < 52 ==> 0 <= perm[i] < 52)
    && (forall i, j :: 0 <= i < j < 52 ==> perm[i] != perm[j])
    && (forall v :: 0 <= v < 52 ==> v in perm)
  }

  predicate Distinct(s: seq<PokerCard>)
  {
    forall i, j :: 0 <= i < j < |s| ==> s[i] != s[j]
  }

  /** The cards left after dealing position `r`: the last card moves into slot `r` and the last slot is dropped. */
  function Removed(s: seq<PokerCard>, r: int): (t: seq<PokerCard>)
    requires 0 <= r < |s|
    ensures |t| == |s| - 1
    ensures multiset(t) + multiset{s[r]} == multiset(s)
    ensures forall x :: x in t ==> x in s
    ensures Distinct(s) ==> Distinct(t) && s[r] !in t
  {
    var t := s[r := s[|s| - 1]][..|s| - 1];
    RemovedParts(s, r, t);
    t
  }

  lemma RemovedParts(s: seq<PokerCard>, r: int, t: seq<PokerCard>)
    requires 0 <= r < |s| && t == s[r := s[|s| - 1]][..|s| - 1]
    ensures multiset(t) + multiset{s[r]} == multiset(s)
    ensures forall x :: x in t ==> x in s
    ensures Distinct(s) ==> Distinct(t) && s[r] !in t
  {
    var n := |s|;
    if r == n - 1 {
      assert s == t + [s[r]];
    } else {
      assert t == s[..r] + [s[n - 1]] + s[r + 1..n - 1];
      assert s == s[..r] + [s[r]] + s[r + 1..n - 1] + [s[n - 1]];
    }
    if Distinct(s) {
      RemovedDistinct(s, r, t);
    }
  }

  lemma RemovedDistinct(s: seq<PokerCard>, r: int, t: seq<PokerCard>)
    requires 0 <= r < |s| && t == s[r := s[|s| - 1]][..|s| - 1] && Distinct(s)
    ensures Distinct(t) && s[r] !in t
  {
    var n := |s|;
    forall k | 0 <= k < |t|
      ensures t[k] != s[r] && t[k] == (if k == r then s[n - 1] else s[k])
    {
    }
    forall i, j | 0 <= i < j < |t|
      ensures t[i] != t[j]
    {
    }
  }

  class TexasDealer {
    var cardSet: seq<PokerCard>

    /**
     * `NewTexasDealer`: builds the pack in order and lays it out in the order
     * `perm` gives; `perm` stands for the result of `rand.Perm`.
     */
    constructor (perm: seq<int>)
      requires IsPerm(perm)
      ensures |cardSet| == 52
      ensures forall i :: 0 <= i < 52 ==> cardSet[i] == PackCard(perm[i])
      ensures Distinct(cardSet)
      ensures forall c :: c in cardSet <==> ValidCard(c)
    {
      var cards := new PokerCard[52];
      var count := 0;
      var suit := 0;
      while suit < 4
        invariant 0 <= suit <= 4 && count == suit * 13
        invariant forall n :: 0 <= n < count ==> cards[n] == PackCard(n)
      {
        var rank := 2;
        while rank <= 14
          invariant 2 <= rank <= 15 && count == suit * 13 + rank - 2
          invariant forall n :: 0 <= n < count ==> cards[n] == PackCard(n)
        {
          PackCardBijective(0, 0, PokerCard(suit, rank));
          cards[count] := PokerCard(suit, rank);
          count := count + 1;
          rank := rank + 1;
        }
        suit := suit + 1;
      }
      var shuffled := new PokerCard[52];
      var i := 0;
      while i < 52
        invariant 0 <= i <= 52
        invariant forall n :: 0 <= n < 52 ==> cards[n] == PackCard(n)
        invariant forall k :: 0 <= k < i ==> shuffled[k] == PackCard(perm[k])
      {
        shuffled[i] := cards[perm[i]];
        i := i + 1;
      }
      var s := shuffled[..];
      forall i, j | 0 <= i < j < 52
        ensures s[i] != s[j]
      {
        PackCardBijective(perm[i], perm[j], s[i]);
      }
      forall c
        ensures c in s <==> ValidCard(c)
      {
        PackCardBijective(0, 0, c);
        if c in s {
          var k :| 0 <= k < 52 && s[k] == c;
          assert c == PackCard(perm[k]);
        }
        if ValidCard(c) {
          var v := c.suit * 13 + c.rank - 2;
          assert v in perm;
          var k :| 0 <= k < 52 && perm[k] == v;
          assert s[k] == c;
        }
      }
      cardSet := s;
    }

    /**
     * `Deal`: hands out the card at position `r` (the caller's stand-in for
     * `rand.Intn`) and removes it from the pack.
     */
    method Deal(r: int) returns (selected: PokerCard)
      requires 0 <= r < |cardSet|
      modifies this
      ensures selected == old(cardSet[r])
      ensures cardSet == Removed(old(cardSet), r)
    {
      var n := |cardSet|;
      selected := cardSet[r];
      cardSet := cardSet[r := cardSet[n - 1]];
      cardSet := cardSet[..n - 1];
    }
  }
}
