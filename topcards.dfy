/**
 * `getTopCards`: the best five-card hand a player can make from the
 * community cards on the table and their two hole cards.
 */
module TopCards {
  import opened Wrappers
  import opened Cards
  import opened Hands

  /** Five positions into the sorted cards, one per nested loop of the search. */
  datatype Pick = Pick(i: int, j: int, k: int, l: int, m: int)

  predicate ValidPick(p: Pick, n: int)
  {
    0 <= p.i < p.j < p.k < p.l < p.m < n
  }

  /** Order in which the nested loops visit picks. */
  predicate Before(p: Pick, q: Pick)
  {
    p.i < q.i || (p.i == q.i && (p.j < q.j || (p.j == q.j && (p.k < q.k || (p.k == q.k && (p.l < q.l || (p.l == q.l && p.m < q.m)))))))
  }

  /** The hand at the five positions of `p`. */
  function Select(c: seq<PokerCard>, p: Pick): (h: seq<PokerCard>)
    requires ValidPick(p, |c|)
    ensures |h| == 5 && forall x :: x in h ==> x in c
    ensures Sorted(c) ==> IsHand(h)
  {
    var h := [c[p.i], c[p.j], c[p.k], c[p.l], c[p.m]];
    if Sorted(c) then SortedIsPairwise(c); h else h
  }

  /** The community cards that have been dealt, in slot order. */
  function Present(cc: seq<Option<PokerCard>>): (r: seq<PokerCard>)
    ensures |r| <= |cc|
  {
    if |cc| == 0 then []
    else Present(cc[..|cc| - 1]) + (if cc[|cc| - 1].Some? then [cc[|cc| - 1].value] else [])
  }

  lemma {:induction false} PresentMembers(cc: seq<Option<PokerCard>>, x: PokerCard)
    ensures x in Present(cc) <==> Some(x) in cc
  {
    if |cc| > 0 {
      PresentMembers(cc[..|cc| - 1], x);
      assert cc == cc[..|cc| - 1] + [cc[|cc| - 1]];
    }
  }

  /** The table's cards followed by the player's two cards. */
  function Gathered(cc: seq<Option<PokerCard>>, hole: seq<Option<PokerCard>>): seq<PokerCard>
    requires |hole| == 2 && hole[0].Some? && hole[1].Some?
  {
    Present(cc) + [hole[0].value, hole[1].value]
  }

  /** Picks that no pick strictly beats never lose to `top`. */
  predicate NotBeaten(c: seq<PokerCard>, top: seq<PokerCard>, p: Pick)
  {
    Sorted(c) && ValidPick(p, |c|) && IsHand(top) && !HandLess(top, Select(c, p))
  }

  /** `top` is empty or the hand at the pick `best`. */
  predicate Tracks(cards: seq<PokerCard>, top: seq<PokerCard>, best: Pick)
  {
    top == [] || (ValidPick(best, |cards|) && top == Select(cards, best))
  }

  /** Every pick the loops visit before `q` leaves `top` unbeaten. */
  ghost predicate Covered(cards: seq<PokerCard>, top: seq<PokerCard>, q: Pick)
  {
    forall p {:trigger NotBeaten(cards, top, p)} :: ValidPick(p, |cards|) && Before(p, q) ==> NotBeaten(cards, top, p)
  }

  /** The current best survives a pick that does not beat it. */
  lemma Keep(cards: seq<PokerCard>, top: seq<PokerCard>, i: int, j: int, k: int, l: int, m: int)
    requires Sorted(cards) && ValidPick(Pick(i, j, k, l, m), |cards|) && IsHand(top)
    requires Covered(cards, top, Pick(i, j, k, l, m)) && !HandLess(top, Select(cards, Pick(i, j, k, l, m)))
    ensures Covered(cards, top, Pick(i, j, k, l, m + 1))
  {
    var q := Pick(i, j, k, l, m);
    forall p | ValidPick(p, |cards|) && Before(p, Pick(i, j, k, l, m + 1))
      ensures NotBeaten(cards, top, p)
    {
      if p != q {
        assert Before(p, q);
      }
    }
  }

  /** A pick that beats the current best (or is the first one) replaces it. */
  lemma Replace(cards: seq<PokerCard>, top: seq<PokerCard>, i: int, j: int, k: int, l: int, m: int)
    requires Sorted(cards) && ValidPick(Pick(i, j, k, l, m), |cards|)
    requires Covered(cards, top, Pick(i, j, k, l, m))
    requires top == [] || (IsHand(top) && HandLess(top, Select(cards, Pick(i, j, k, l, m))))
    ensures Covered(cards, Select(cards, Pick(i, j, k, l, m)), Pick(i, j, k, l, m + 1))
  {
    var q := Pick(i, j, k, l, m);
    var t := Select(cards, q);
    forall p | ValidPick(p, |cards|) && Before(p, Pick(i, j, k, l, m + 1))
      ensures NotBeaten(cards, t, p)
    {
      if p == q {
        HandLessIrreflexive(t);
      } else {
        assert Before(p, q) && NotBeaten(cards, top, p);
        HandLessTransitive(top, t, Select(cards, p));
      }
    }
  }

  lemma NextL(cards: seq<PokerCard>, top: seq<PokerCard>, i: int, j: int, k: int, l: int)
    requires Covered(cards, top, Pick(i, j, k, l, |cards|))
    ensures Covered(cards, top, Pick(i, j, k, l + 1, l + 2))
  {
    forall p | ValidPick(p, |cards|) && Before(p, Pick(i, j, k, l + 1, l + 2))
      ensures NotBeaten(cards, top, p)
    {
      assert Before(p, Pick(i, j, k, l, |cards|));
    }
  }

  lemma NextK(cards: seq<PokerCard>, top: seq<PokerCard>, i: int, j: int, k: int)
    requires Covered(cards, top, Pick(i, j, k, |cards| - 1, |cards|))
    ensures Covered(cards, top, Pick(i, j, k + 1, k + 2, k + 3))
  {
    forall p | ValidPick(p, |cards|) && Before(p, Pick(i, j, k + 1, k + 2, k + 3))
      ensures NotBeaten(cards, top, p)
    {
      assert Before(p, Pick(i, j, k, |cards| - 1, |cards|));
    }
  }

  lemma NextJ(cards: seq<PokerCard>, top: seq<PokerCard>, i: int, j: int)
    requires Covered(cards, top, Pick(i, j, |cards| - 2, |cards| - 1, |cards|))
    ensures Covered(cards, top, Pick(i, j + 1, j + 2, j + 3, j + 4))
  {
    forall p | ValidPick(p, |cards|) && Before(p, Pick(i, j + 1, j + 2, j + 3, j + 4))
      ensures NotBeaten(cards, top, p)
    {
      assert Before(p, Pick(i, j, |cards| - 2, |cards| - 1, |cards|));
    }
  }

  lemma NextI(cards: seq<PokerCard>, top: seq<PokerCard>, i: int)
    requires Covered(cards, top, Pick(i, |cards| - 3, |cards| - 2, |cards| - 1, |cards|))
    ensures Covered(cards, top, Pick(i + 1, i + 2, i + 3, i + 4, i + 5))
  {
    forall p | ValidPick(p, |cards|) && Before(p, Pick(i + 1, i + 2, i + 3, i + 4, i + 5))
      ensures NotBeaten(cards, top, p)
    {
      assert Before(p, Pick(i, |cards| - 3, |cards| - 2, |cards| - 1, |cards|));
    }
  }

  /**
   * `top` is a hand drawn from five positions of `cards` that no other such
   * hand beats; when there are only five cards it is all of them.
   */
  ghost predicate IsTopOf(cards: seq<PokerCard>, top: seq<PokerCard>)
    requires Sorted(cards)
  {
    && IsHand(top)
    && (exists p {:trigger Select(cards, p)} :: ValidPick(p, |cards|) && top == Select(cards, p))
    && (forall p {:trigger Select(cards, p)} :: ValidPick(p, |cards|) ==> !HandLess(top, Select(cards, p)))
    && (|cards| == 5 ==> top == cards)
  }

  /** After the last loop every pick has been visited, so the kept hand is a best one. */
  lemma Finish(cards: seq<PokerCard>, top: seq<PokerCard>, best: Pick)
    requires Sorted(cards) && |cards| >= 5
    requires Tracks(cards, top, best)
    requires Covered(cards, top, Pick(|cards| - 4, |cards| - 3, |cards| - 2, |cards| - 1, |cards|))
    ensures IsTopOf(cards, top)
  {
    assert NotBeaten(cards, top, Pick(0, 1, 2, 3, 4));
    forall p | ValidPick(p, |cards|)
      ensures !HandLess(top, Select(cards, p))
    {
      assert NotBeaten(cards, top, p);
    }
    if |cards| == 5 {
      assert best == Pick(0, 1, 2, 3, 4);
      assert top == cards;
    }
  }

  /**
   * `getTopCards`. Fewer than three community cards or a missing hole card
   * make the Go code panic; here they are preconditions. The result is one of
   * the five-card hands drawn from the sorted cards, and no such hand beats it.
   */
  method GetTopCards(communityCards: seq<Option<PokerCard>>, playerCards: seq<Option<PokerCard>>)
    returns (topCards: seq<PokerCard>)
    requires |communityCards| == 5 && |playerCards| == 2
    requires |Present(communityCards)| >= 3
    requires playerCards[0].Some? && playerCards[1].Some?
    ensures IsTopOf(SortCards(Gathered(communityCards, playerCards)), topCards)
  {
    var cards: seq<PokerCard> := [];
    var t := 0;
    while t < 5
      invariant 0 <= t <= 5
      invariant cards == Present(communityCards[..t])
    {
      assert communityCards[..t + 1][..t] == communityCards[..t];
      if communityCards[t] != None {
        cards := cards + [communityCards[t].value];
      }
      t := t + 1;
    }
    assert communityCards[..5] == communityCards;
    ghost var hole := [playerCards[0].value, playerCards[1].value];
    t := 0;
    while t < 2
      invariant 0 <= t <= 2
      invariant cards == Present(communityCards) + hole[..t]
    {
      cards := cards + [playerCards[t].value];
      t := t + 1;
    }
    assert hole[..2] == hole;
    cards := SortCards(cards);

    topCards := BestHand(cards);
  }

  /** The body of the innermost loop: the pick replaces the current best when that is empty or loses to it. */
  method Consider(cards: seq<PokerCard>, topCards: seq<PokerCard>, ghost best: Pick, i: int, j: int, k: int, l: int, m: int)
    returns (newTop: seq<PokerCard>, ghost newBest: Pick)
    requires Sorted(cards) && ValidPick(Pick(i, j, k, l, m), |cards|)
    requires Tracks(cards, topCards, best)
    requires Covered(cards, topCards, Pick(i, j, k, l, m))
    ensures ValidPick(newBest, |cards|) && newTop == Select(cards, newBest)
    ensures newTop == topCards || newTop == Select(cards, Pick(i, j, k, l, m))
    ensures Covered(cards, newTop, Pick(i, j, k, l, m + 1))
  {
    var newCards := [cards[i], cards[j], cards[k], cards[l], cards[m]];
    assert newCards == Select(cards, Pick(i, j, k, l, m));
    var better := true;
    if |topCards| != 0 {
      better := LessThanCardSet(topCards, newCards);
    }
    if better {
      Replace(cards, topCards, i, j, k, l, m);
      newTop, newBest := newCards, Pick(i, j, k, l, m);
    } else {
      Keep(cards, topCards, i, j, k, l, m);
      newTop, newBest := topCards, best;
    }
  }

  /** The innermost loop of `getTopCards`, for fixed first four positions. */
  method ScanFifth(cards: seq<PokerCard>, top: seq<PokerCard>, ghost best0: Pick, i: int, j: int, k: int, l: int)
    returns (topCards: seq<PokerCard>, ghost best: Pick)
    requires Sorted(cards) && 0 <= i < j < k < l < |cards| - 1
    requires Tracks(cards, top, best0)
    requires Covered(cards, top, Pick(i, j, k, l, l + 1))
    ensures Tracks(cards, topCards, best)
    ensures Covered(cards, topCards, Pick(i, j, k, l, |cards|))
  {
    topCards, best := top, best0;
    var m := l + 1;
    while m < |cards|
      invariant l + 1 <= m <= |cards|
      invariant Tracks(cards, topCards, best)
      invariant Covered(cards, topCards, Pick(i, j, k, l, m))
    {
      topCards, best := Consider(cards, topCards, best, i, j, k, l, m);
      m := m + 1;
    }
  }

  /** The two innermost loops of `getTopCards`, for fixed first three positions. */
  method ScanLast(cards: seq<PokerCard>, top: seq<PokerCard>, ghost best0: Pick, i: int, j: int, k: int)
    returns (topCards: seq<PokerCard>, ghost best: Pick)
    requires Sorted(cards) && 0 <= i < j < k < |cards| - 2
    requires Tracks(cards, top, best0)
    requires Covered(cards, top, Pick(i, j, k, k + 1, k + 2))
    ensures Tracks(cards, topCards, best)
    ensures Covered(cards, topCards, Pick(i, j, k, |cards| - 1, |cards|))
  {
    var n := |cards|;
    topCards, best := top, best0;
    var l := k + 1;
    while l < n - 1
      invariant k + 1 <= l <= n - 1
      invariant Tracks(cards, topCards, best)
      invariant Covered(cards, topCards, Pick(i, j, k, l, l + 1))
    {
      topCards, best := ScanFifth(cards, topCards, best, i, j, k, l);
      NextL(cards, topCards, i, j, k, l);
      l := l + 1;
    }
  }

  /** The three innermost loops of `getTopCards`, for a fixed first position. */
  method ScanRest(cards: seq<PokerCard>, top: seq<PokerCard>, ghost best0: Pick, i: int)
    returns (topCards: seq<PokerCard>, ghost best: Pick)
    requires Sorted(cards) && 0 <= i < |cards| - 4
    requires Tracks(cards, top, best0)
    requires Covered(cards, top, Pick(i, i + 1, i + 2, i + 3, i + 4))
    ensures Tracks(cards, topCards, best)
    ensures Covered(cards, topCards, Pick(i, |cards| - 3, |cards| - 2, |cards| - 1, |cards|))
  {
    var n := |cards|;
    topCards, best := top, best0;
    var j := i + 1;
    while j < n - 3
      invariant i + 1 <= j <= n - 3
      invariant Tracks(cards, topCards, best)
      invariant Covered(cards, topCards, Pick(i, j, j + 1, j + 2, j + 3))
    {
      var k := j + 1;
      while k < n - 2
        invariant j + 1 <= k <= n - 2
        invariant Tracks(cards, topCards, best)
        invariant Covered(cards, topCards, Pick(i, j, k, k + 1, k + 2))
      {
        topCards, best := ScanLast(cards, topCards, best, i, j, k);
        NextK(cards, topCards, i, j, k);
        k := k + 1;
      }
      NextJ(cards, topCards, i, j);
      j := j + 1;
    }
  }

  /**
   * The five nested loops of `getTopCards`: visit every five-card pick of the
   * sorted cards in order and keep the first pick that no later pick beats.
   */
  method BestHand(cards: seq<PokerCard>) returns (topCards: seq<PokerCard>)
    requires Sorted(cards) && |cards| >= 5
    ensures IsTopOf(cards, topCards)
  {
    var n := |cards|;
    topCards := [];
    ghost var best := Pick(0, 1, 2, 3, 4);
    var i := 0;
    while i < n - 4
      invariant 0 <= i <= n - 4
      invariant Tracks(cards, topCards, best)
      invariant Covered(cards, topCards, Pick(i, i + 1, i + 2, i + 3, i + 4))
    {
      topCards, best := ScanRest(cards, topCards, best, i);
      NextI(cards, topCards, i);
      i := i + 1;
    }
    Finish(cards, topCards, best);
  }
}
