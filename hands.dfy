/**
 * The hand evaluator: the category of a sorted five-card hand (`GetRank`),
 * the per-category tie-break keys and the comparison `LessThanCardSet`.
 */
module Hands {
  import opened Cards

  /** Poker hand categories, weakest first; `FiveOfAKind` exists in the code's table but is never produced. */
  datatype Category =
    | HighCard | OnePair | TwoPair | ThreeOfAKind | Straight | Flush
    | FullHouse | FourOfAKind | StraightFlush | RoyalFlush | FiveOfAKind
  {
    /** The integer the code uses for the category. */
    function Ord(): int
    {
      match this
      case HighCard => 0
      case OnePair => 1
      case TwoPair => 2
      case ThreeOfAKind => 3
      case Straight => 4
      case Flush => 5
      case FullHouse => 6
      case FourOfAKind => 7
      case StraightFlush => 8
      case RoyalFlush => 9
      case FiveOfAKind => 10
    }
  }

  /** A hand as the evaluator sees it: five cards in `CardLess` order. */
  predicate IsHand(h: seq<PokerCard>)
  {
    |h| == 5 && Sorted(h)
  }

  // ---------------------------------------------------------------------
  // The category as the code computes it, on positions of a sorted hand.
  // ---------------------------------------------------------------------

  /** Five consecutive ranks, or the wheel 2-3-4-5-A. */
  predicate StraightRun(h: seq<PokerCard>)
    requires |h| == 5
  {
    (h[0].rank + 1 == h[1].rank && h[1].rank + 1 == h[2].rank && h[2].rank + 1 == h[3].rank && h[3].rank + 1 == h[4].rank)
    || (h[0].rank == 2 && h[1].rank == 3 && h[2].rank == 4 && h[3].rank == 5 && h[4].rank == Ace)
  }

  /** All five cards share the suit of the first. */
  predicate SameSuit(h: seq<PokerCard>)
    requires |h| == 5
  {
    h[0].suit == h[1].suit && h[0].suit == h[2].suit && h[0].suit == h[3].suit && h[0].suit == h[4].suit
  }

  predicate FourRun(h: seq<PokerCard>)
    requires |h| == 5
  {
    (h[0].rank == h[1].rank && h[0].rank == h[2].rank && h[0].rank == h[3].rank)
    || (h[1].rank == h[2].rank && h[1].rank == h[3].rank && h[1].rank == h[4].rank)
  }

  predicate FullHouseRun(h: seq<PokerCard>)
    requires |h| == 5
  {
    (h[0].rank == h[1].rank && h[0].rank == h[2].rank && h[3].rank == h[4].rank)
    || (h[0].rank == h[1].rank && h[2].rank == h[3].rank && h[2].rank == h[4].rank)
  }

  predicate ThreeRun(h: seq<PokerCard>)
    requires |h| == 5
  {
    (h[0].rank == h[1].rank && h[0].rank == h[2].rank)
    || (h[1].rank == h[2].rank && h[1].rank == h[3].rank)
    || (h[2].rank == h[3].rank && h[2].rank == h[4].rank)
  }

  predicate TwoPairRun(h: seq<PokerCard>)
    requires |h| == 5
  {
    (h[0].rank == h[1].rank && (h[2].rank == h[3].rank || h[3].rank == h[4].rank))
    || (h[1].rank == h[2].rank && h[3].rank == h[4].rank)
  }

  predicate PairRun(h: seq<PokerCard>)
    requires |h| == 5
  {
    h[0].rank == h[1].rank || h[1].rank == h[2].rank || h[2].rank == h[3].rank || h[3].rank == h[4].rank
  }

  /** `CardSet.GetRank`: the category of a sorted five-card hand, tested from the strongest down. */
  function GetRank(h: seq<PokerCard>): (r: Category)
    requires IsHand(h)
    ensures r != FiveOfAKind
  {
    var straight := StraightRun(h);
    var flush := SameSuit(h);
    if straight && flush then
      (if h[0].rank == 10 && h[4].rank == Ace then RoyalFlush else StraightFlush)
    else if FourRun(h) then FourOfAKind
    else if FullHouseRun(h) then FullHouse
    else if flush then Flush
    else if straight then Straight
    else if ThreeRun(h) then ThreeOfAKind
    else if TwoPairRun(h) then TwoPair
    else if PairRun(h) then OnePair
    else HighCard
  }

  // ---------------------------------------------------------------------
  // The same categories by rank multiplicities, independent of positions.
  // ---------------------------------------------------------------------

  /** Number of cards of rank `x`. */
  function Count(h: seq<PokerCard>, x: int): nat
  {
    if |h| == 0 then 0 else (if h[0].rank == x then 1 else 0) + Count(h[1..], x)
  }

  function Ind(b: bool): nat
  {
    if b then 1 else 0
  }

  lemma Count5(h: seq<PokerCard>, x: int)
    requires |h| == 5
    ensures Count(h, x) == Ind(h[0].rank == x) + Ind(h[1].rank == x) + Ind(h[2].rank == x) + Ind(h[3].rank == x) + Ind(h[4].rank == x)
  {
    assert h[1..][1..] == h[2..] && h[2..][1..] == h[3..] && h[3..][1..] == h[4..] && h[4..][1..] == [];
    assert Count(h[4..], x) == Ind(h[4].rank == x);
    assert Count(h[3..], x) == Ind(h[3].rank == x) + Count(h[4..], x);
    assert Count(h[2..], x) == Ind(h[2].rank == x) + Count(h[3..], x);
    assert Count(h[1..], x) == Ind(h[1].rank == x) + Count(h[2..], x);
  }

  ghost predicate Quads(h: seq<PokerCard>)
  {
    exists x :: Count(h, x) >= 4
  }

  ghost predicate Trips(h: seq<PokerCard>)
  {
    exists x :: Count(h, x) == 3
  }

  ghost predicate Pair(h: seq<PokerCard>)
  {
    exists x :: Count(h, x) == 2
  }

  ghost predicate TwoPairs(h: seq<PokerCard>)
  {
    exists x, y :: x < y && Count(h, x) == 2 && Count(h, y) == 2
  }

  ghost predicate AllSameSuit(h: seq<PokerCard>)
  {
    forall i :: 0 <= i < |h| ==> h[i].suit == h[0].suit
  }

  ghost predicate DistinctRanks(h: seq<PokerCard>)
  {
    forall i, j :: 0 <= i < j < |h| ==> h[i].rank != h[j].rank
  }

  /** Five different ranks that fit in a window of five, or exactly 2, 3, 4, 5 and Ace. */
  ghost predicate Run(h: seq<PokerCard>)
  {
    DistinctRanks(h) &&
    ((exists i :: 0 <= i < |h| && forall j :: 0 <= j < |h| ==> h[i].rank <= h[j].rank <= h[i].rank + 4)
     || (forall j :: 0 <= j < |h| ==> h[j].rank in {2, 3, 4, 5, Ace}))
  }

  /** The category defined by what the hand holds: suits and how often each rank occurs. */
  ghost function RefCategory(h: seq<PokerCard>): Category
  {
    if Run(h) && AllSameSuit(h) then
      (if Count(h, 10) > 0 && Count(h, Ace) > 0 then RoyalFlush else StraightFlush)
    else if Quads(h) then FourOfAKind
    else if Trips(h) && Pair(h) then FullHouse
    else if AllSameSuit(h) then Flush
    else if Run(h) then Straight
    else if Trips(h) then ThreeOfAKind
    else if TwoPairs(h) then TwoPair
    else if Pair(h) then OnePair
    else HighCard
  }

  /** Ranks of a sorted hand never decrease. */
  lemma HandRanks(h: seq<PokerCard>)
    requires IsHand(h)
    ensures h[0].rank <= h[1].rank <= h[2].rank <= h[3].rank <= h[4].rank
  {
    SortedIsPairwise(h);
  }

  lemma RunIff(h: seq<PokerCard>)
    requires |h| == 5
    requires h[0].rank <= h[1].rank <= h[2].rank <= h[3].rank <= h[4].rank
    ensures StraightRun(h) <==> Run(h)
  {
    if StraightRun(h) {
      if h[0].rank == 2 && h[4].rank == Ace {
        assert forall j :: 0 <= j < |h| ==> h[j].rank in {2, 3, 4, 5, Ace};
      } else {
        assert forall j :: 0 <= j < |h| ==> h[0].rank <= h[j].rank <= h[0].rank + 4;
      }
    }
    if Run(h) {
      assert h[0].rank < h[1].rank < h[2].rank < h[3].rank < h[4].rank;
      if exists i :: 0 <= i < |h| && forall j :: 0 <= j < |h| ==> h[i].rank <= h[j].rank <= h[i].rank + 4 {
        var i :| 0 <= i < |h| && forall j :: 0 <= j < |h| ==> h[i].rank <= h[j].rank <= h[i].rank + 4;
        assert h[i].rank <= h[0].rank && h[4].rank <= h[i].rank + 4;
      } else {
        assert forall j :: 0 <= j < |h| ==> h[j].rank in {2, 3, 4, 5, Ace};
        assert h[0].rank in {2, 3, 4, 5, Ace} && h[4].rank in {2, 3, 4, 5, Ace};
      }
    }
  }

  lemma QuadsIff(h: seq<PokerCard>)
    requires |h| == 5
    requires h[0].rank <= h[1].rank <= h[2].rank <= h[3].rank <= h[4].rank
    ensures FourRun(h) <==> Quads(h)
  {
    if FourRun(h) {
      Count5(h, h[2].rank);
    }
    if Quads(h) {
      var x :| Count(h, x) >= 4;
      Count5(h, x);
    }
  }

  lemma FullHouseIff(h: seq<PokerCard>)
    requires |h| == 5
    requires h[0].rank <= h[1].rank <= h[2].rank <= h[3].rank <= h[4].rank
    requires !Quads(h)
    ensures FullHouseRun(h) <==> Trips(h) && Pair(h)
  {
    Count5(h, h[2].rank);
    if FullHouseRun(h) {
      Count5(h, h[0].rank);
      Count5(h, h[4].rank);
    }
    if Trips(h) && Pair(h) {
      var x :| Count(h, x) == 3;
      var y :| Count(h, y) == 2;
      Count5(h, x);
      Count5(h, y);
    }
  }

  lemma TripsIff(h: seq<PokerCard>)
    requires |h| == 5
    requires h[0].rank <= h[1].rank <= h[2].rank <= h[3].rank <= h[4].rank
    requires !Quads(h)
    ensures ThreeRun(h) <==> Trips(h)
  {
    Count5(h, h[2].rank);
    if Trips(h) {
      var x :| Count(h, x) == 3;
      Count5(h, x);
    }
  }

  lemma TwoPairsIff(h: seq<PokerCard>)
    requires |h| == 5
    requires h[0].rank <= h[1].rank <= h[2].rank <= h[3].rank <= h[4].rank
    requires !Quads(h) && !Trips(h)
    ensures TwoPairRun(h) <==> TwoPairs(h)
  {
    Count5(h, h[0].rank);
    Count5(h, h[1].rank);
    Count5(h, h[2].rank);
    Count5(h, h[3].rank);
    Count5(h, h[4].rank);
    if TwoPairRun(h) {
      if h[0].rank == h[1].rank && h[2].rank == h[3].rank {
        assert h[1].rank < h[2].rank;
      } else if h[0].rank == h[1].rank {
        assert h[1].rank < h[3].rank;
      } else {
        assert h[2].rank < h[3].rank;
      }
    }
    if TwoPairs(h) {
      var x, y :| x < y && Count(h, x) == 2 && Count(h, y) == 2;
      Count5(h, x);
      Count5(h, y);
    }
  }

  lemma PairIff(h: seq<PokerCard>)
    requires |h| == 5
    requires h[0].rank <= h[1].rank <= h[2].rank <= h[3].rank <= h[4].rank
    requires !Quads(h) && !Trips(h)
    ensures PairRun(h) <==> Pair(h)
  {
    Count5(h, h[0].rank);
    Count5(h, h[1].rank);
    Count5(h, h[2].rank);
    Count5(h, h[3].rank);
    if Pair(h) {
      var x :| Count(h, x) == 2;
      Count5(h, x);
    }
  }

  /**
   * `GetRank` agrees with the position-free definition: the ten reachable
   * categories, decided by suits and rank multiplicities in the code's
   * order of precedence.
   */
  lemma GetRankMatchesReference(h: seq<PokerCard>)
    requires IsHand(h)
    ensures GetRank(h) == RefCategory(h)
  {
    HandRanks(h);
    RunIff(h);
    QuadsIff(h);
    assert SameSuit(h) <==> AllSameSuit(h);
    if StraightRun(h) {
      Count5(h, 10);
      Count5(h, Ace);
    }
    if !Quads(h) {
      FullHouseIff(h);
      TripsIff(h);
      if !Trips(h) {
        TwoPairsIff(h);
        PairIff(h);
      }
    }
  }

  // ---------------------------------------------------------------------
  // Tie-break keys of the categories (`get*` helpers of the comparison).
  // ---------------------------------------------------------------------

  /**
   * The hands `getPairsAndRest` gets through without either `panic`: the last
   * two ranks are equal and so are the two before them or the first two, or
   * the last two differ and the middle two are equal.
   */
  predicate PairsShaped(a: seq<PokerCard>)
    requires |a| == 5
  {
    || (a[3].rank == a[4].rank && (a[1].rank == a[2].rank || a[0].rank == a[1].rank))
    || (a[3].rank != a[4].rank && a[2].rank == a[3].rank)
  }

  /** `getPairsAndRest`: (high pair, low pair, kicker); both `panic`s become the second precondition. */
  function PairsAndRest(a: seq<PokerCard>): (r: (int, int, int))
    requires |a| == 5
    requires PairsShaped(a)
    ensures IsHand(a) && GetRank(a) == TwoPair ==>
      r.1 < r.0 && Count(a, r.0) == 2 && Count(a, r.1) == 2 && Count(a, r.2) == 1
  {
    var r :=
      if a[3].rank == a[4].rank then
        (if a[1].rank == a[2].rank then (a[3].rank, a[1].rank, a[0].rank) else (a[3].rank, a[0].rank, a[2].rank))
      else (a[2].rank, a[0].rank, a[4].rank);
    Count5(a, r.0);
    Count5(a, r.1);
    Count5(a, r.2);
    if IsHand(a) then HandRanks(a); r else r
  }

  /** `getThreeAndHighLow`: (triple, high kicker, low kicker); the `panic` becomes the second precondition. */
  function ThreeAndHighLow(a: seq<PokerCard>): (r: (int, int, int))
    requires |a| == 5
    requires (a[0].rank == a[1].rank && a[0].rank == a[2].rank) || (a[1].rank == a[2].rank && a[1].rank == a[3].rank)
             || (a[2].rank == a[3].rank && a[2].rank == a[4].rank)
    ensures IsHand(a) && GetRank(a) == ThreeOfAKind ==>
      r.2 < r.1 && Count(a, r.0) == 3 && Count(a, r.1) == 1 && Count(a, r.2) == 1
  {
    var r :=
      if a[0].rank == a[1].rank && a[0].rank == a[2].rank then (a[0].rank, a[4].rank, a[3].rank)
      else if a[1].rank == a[2].rank && a[1].rank == a[3].rank then (a[1].rank, a[4].rank, a[0].rank)
      else (a[2].rank, a[1].rank, a[0].rank);
    Count5(a, r.0);
    Count5(a, r.1);
    Count5(a, r.2);
    if IsHand(a) then HandRanks(a); r else r
  }

  /** `getThreeAndPair`: (triple, pair) of a full house. */
  function ThreeAndPair(a: seq<PokerCard>): (r: (int, int))
    requires |a| == 5
    ensures IsHand(a) && GetRank(a) == FullHouse ==> Count(a, r.0) == 3 && Count(a, r.1) == 2
  {
    var r := (a[2].rank, if a[0].rank == a[2].rank then a[4].rank else a[0].rank);
    Count5(a, r.0);
    Count5(a, r.1);
    if IsHand(a) then HandRanks(a); r else r
  }

  /** `getFourAndRest`: (quad, kicker) of four of a kind. */
  function FourAndRest(a: seq<PokerCard>): (r: (int, int))
    requires |a| == 5
    ensures IsHand(a) && GetRank(a) == FourOfAKind ==>
      Count(a, r.0) >= 4 && (Count(a, r.0) == 4 <==> Count(a, r.1) == 1)
  {
    var r := (a[2].rank, if a[0].rank == a[2].rank then a[4].rank else a[0].rank);
    Count5(a, r.0);
    Count5(a, r.1);
    if IsHand(a) then HandRanks(a); r else r
  }

  /**
   * The rank `LessThanCardSet` compares straights by: the top card, or 5 for
   * the wheel. Every card of a straight lies in the five ranks up to it, the
   * ace counting as 1 in the wheel.
   */
  function StraightTop(h: seq<PokerCard>): (t: int)
    requires |h| == 5
    ensures StraightRun(h) && 2 <= h[0].rank && h[4].rank <= Ace ==>
      && 6 <= t + 1 <= Ace + 1
      && forall k :: 0 <= k < 5 ==> t - 4 <= (if h[k].rank == Ace && t == 5 then 1 else h[k].rank) <= t
  {
    if h[0].rank == 2 && h[4].rank == Ace then h[3].rank else h[4].rank
  }

  /** Whether the card at position `i` has a neighbour of the same rank (the test in `LessThanOnePair`). */
  predicate Paired(h: seq<PokerCard>, i: int)
    requires |h| == 5 && 0 <= i < 5
  {
    (i < 4 && h[i].rank == h[i + 1].rank) || (i > 0 && h[i].rank == h[i - 1].rank)
  }

  /** The cards among the first `n` that have no neighbour of equal rank, in order. */
  function SinglesUpTo(h: seq<PokerCard>, n: int): seq<PokerCard>
    requires |h| == 5 && 0 <= n <= 5
  {
    if n == 0 then [] else SinglesUpTo(h, n - 1) + (if Paired(h, n - 1) then [] else [h[n - 1]])
  }

  /** The rank of the last card among the first `n` that has a neighbour of equal rank, or -1. */
  function PairRankUpTo(h: seq<PokerCard>, n: int): int
    requires |h| == 5 && 0 <= n <= 5
  {
    if n == 0 then -1 else if Paired(h, n - 1) then h[n - 1].rank else PairRankUpTo(h, n - 1)
  }

  function Singles(h: seq<PokerCard>): seq<PokerCard>
    requires |h| == 5
  {
    SinglesUpTo(h, 5)
  }

  function PairRank(h: seq<PokerCard>): int
    requires |h| == 5
  {
    PairRankUpTo(h, 5)
  }

  /** Ranks from the last card to the first, the order `LessThanHighCard` reads them in. */
  function RevRanks(h: seq<PokerCard>): (r: seq<int>)
  {
    seq(|h|, k requires 0 <= k < |h| => h[|h| - 1 - k].rank)
  }

  /**
   * In a one-pair hand the pair rank is the rank that occurs twice, and the
   * singles are the other three cards, each rank once, in increasing order.
   */
  lemma {:induction false} OnePairParts(h: seq<PokerCard>)
    requires IsHand(h) && GetRank(h) == OnePair
    ensures Count(h, PairRank(h)) == 2
    ensures |Singles(h)| == 3
    ensures forall k :: 0 <= k < 3 ==> Count(h, Singles(h)[k].rank) == 1
    ensures Singles(h)[0].rank < Singles(h)[1].rank < Singles(h)[2].rank
  {
    HandRanks(h);
    var s := Singles(h);
    assert SinglesUpTo(h, 1) == (if Paired(h, 0) then [] else [h[0]]);
    assert SinglesUpTo(h, 2) == SinglesUpTo(h, 1) + (if Paired(h, 1) then [] else [h[1]]);
    assert SinglesUpTo(h, 3) == SinglesUpTo(h, 2) + (if Paired(h, 2) then [] else [h[2]]);
    assert SinglesUpTo(h, 4) == SinglesUpTo(h, 3) + (if Paired(h, 3) then [] else [h[3]]);
    assert s == SinglesUpTo(h, 4) + (if Paired(h, 4) then [] else [h[4]]);
    assert PairRankUpTo(h, 1) == if Paired(h, 0) then h[0].rank else -1;
    assert PairRankUpTo(h, 2) == if Paired(h, 1) then h[1].rank else PairRankUpTo(h, 1);
    assert PairRankUpTo(h, 3) == if Paired(h, 2) then h[2].rank else PairRankUpTo(h, 2);
    assert PairRankUpTo(h, 4) == if Paired(h, 3) then h[3].rank else PairRankUpTo(h, 3);
    assert PairRank(h) == if Paired(h, 4) then h[4].rank else PairRankUpTo(h, 4);
    Count5(h, h[0].rank);
    Count5(h, h[1].rank);
    Count5(h, h[2].rank);
    Count5(h, h[3].rank);
    Count5(h, h[4].rank);
    if h[0].rank == h[1].rank {
      assert s == [h[2], h[3], h[4]];
      assert PairRank(h) == h[1].rank;
    } else if h[1].rank == h[2].rank {
      assert s == [h[0], h[3], h[4]];
      assert PairRank(h) == h[2].rank;
    } else if h[2].rank == h[3].rank {
      assert s == [h[0], h[1], h[4]];
      assert PairRank(h) == h[3].rank;
    } else {
      assert s == [h[0], h[1], h[2]];
      assert PairRank(h) == h[4].rank;
    }
  }

  // ---------------------------------------------------------------------
  // Lexicographic order on keys.
  // ---------------------------------------------------------------------

  /** Lexicographic order on integer sequences; a proper prefix is smaller. */
  predicate LexLess(x: seq<int>, y: seq<int>)
  {
    if |x| == 0 then |y| > 0
    else if |y| == 0 then false
    else if x[0] != y[0] then x[0] < y[0]
    else LexLess(x[1..], y[1..])
  }

  lemma LexLessCons(a: int, x: seq<int>, b: int, y: seq<int>)
    ensures LexLess([a] + x, [b] + y) == (a < b || (a == b && LexLess(x, y)))
  {
    assert ([a] + x)[1..] == x;
    assert ([b] + y)[1..] == y;
  }

  lemma {:induction false} LexLessIrreflexive(x: seq<int>)
    ensures !LexLess(x, x)
  {
    if |x| > 0 {
      LexLessIrreflexive(x[1..]);
    }
  }

  lemma {:induction false} LexLessTransitive(x: seq<int>, y: seq<int>, z: seq<int>)
    requires LexLess(x, y) && LexLess(y, z)
    ensures LexLess(x, z)
  {
    if |x| > 0 && |y| > 0 && |z| > 0 && x[0] == y[0] && y[0] == z[0] {
      LexLessTransitive(x[1..], y[1..], z[1..]);
    }
  }

  lemma {:induction false} LexLessTotal(x: seq<int>, y: seq<int>)
    ensures x == y || LexLess(x, y) || LexLess(y, x)
  {
    if |x| > 0 && |y| > 0 && x[0] == y[0] {
      LexLessTotal(x[1..], y[1..]);
      if x[1..] == y[1..] {
        assert x == [x[0]] + x[1..] && y == [y[0]] + y[1..];
      }
    }
  }

  /** On sequences of equal length, the first position where they differ decides. */
  lemma {:induction false} LexLessFirstDiff(x: seq<int>, y: seq<int>, t: int)
    requires |x| == |y| && 0 <= t < |x|
    requires forall k :: 0 <= k < t ==> x[k] == y[k]
    requires x[t] != y[t]
    ensures LexLess(x, y) == (x[t] < y[t])
  {
    if t > 0 {
      LexLessFirstDiff(x[1..], y[1..], t - 1);
    }
  }

  // ---------------------------------------------------------------------
  // The comparison of hands.
  // ---------------------------------------------------------------------

  /** The sort key of a hand: its category, then the category's tie-break ranks. */
  function Key(h: seq<PokerCard>): seq<int>
    requires IsHand(h)
  {
    var c := GetRank(h);
    [c.Ord()] +
      match c
      case HighCard => RevRanks(h)
      case OnePair => [PairRank(h)] + RevRanks(Singles(h))
      case TwoPair => var t := PairsAndRest(h); [t.0, t.1, t.2]
      case ThreeOfAKind => var t := ThreeAndHighLow(h); [t.0, t.1, t.2]
      case Straight => [StraightTop(h)]
      case Flush => RevRanks(h)
      case FullHouse => var t := ThreeAndPair(h); [t.0, t.1]
      case FourOfAKind => var t := FourAndRest(h); [t.0, t.1]
      case StraightFlush => [StraightTop(h)]
      case RoyalFlush => []
      case FiveOfAKind => []
  }

  /** `b` beats `a`: the key of `a` comes first in lexicographic order. */
  predicate HandLess(a: seq<PokerCard>, b: seq<PokerCard>)
    requires IsHand(a) && IsHand(b)
  {
    LexLess(Key(a), Key(b))
  }

  /** `LessThanHighCard`: ranks compared from the last position to the first; `panic` on unequal lengths becomes the precondition. */
  method LessThanHighCard(a: seq<PokerCard>, b: seq<PokerCard>) returns (r: bool)
    requires |a| == |b|
    ensures r == LexLess(RevRanks(a), RevRanks(b))
  {
    var i := |a| - 1;
    while i >= 0
      invariant -1 <= i < |a|
      invariant forall k :: i < k < |a| ==> a[k].rank == b[k].rank
    {
      if a[i].rank != b[i].rank {
        LexLessFirstDiff(RevRanks(a), RevRanks(b), |a| - 1 - i);
        return a[i].rank < b[i].rank;
      }
      i := i - 1;
    }
    assert RevRanks(a) == RevRanks(b);
    LexLessIrreflexive(RevRanks(a));
    return false;
  }

  /** `LessThanOnePair`: pair rank first, then the unpaired cards from the highest down. */
  method LessThanOnePair(a: seq<PokerCard>, b: seq<PokerCard>) returns (r: bool)
    requires |a| == 5 && |b| == 5
    requires PairRank(a) == PairRank(b) ==> |Singles(a)| == |Singles(b)|
    ensures r == LexLess([PairRank(a)] + RevRanks(Singles(a)), [PairRank(b)] + RevRanks(Singles(b)))
  {
    var paira, pairb := -1, -1;
    var resta, restb := [], [];
    var i := 0;
    while i < 5
      invariant 0 <= i <= 5
      invariant paira == PairRankUpTo(a, i) && resta == SinglesUpTo(a, i)
    {
      if (i < 4 && a[i].rank == a[i + 1].rank) || (i > 0 && a[i].rank == a[i - 1].rank) {
        paira := a[i].rank;
      } else {
        resta := resta + [a[i]];
      }
      i := i + 1;
    }
    i := 0;
    while i < 5
      invariant 0 <= i <= 5
      invariant pairb == PairRankUpTo(b, i) && restb == SinglesUpTo(b, i)
    {
      if (i < 4 && b[i].rank == b[i + 1].rank) || (i > 0 && b[i].rank == b[i - 1].rank) {
        pairb := b[i].rank;
      } else {
        restb := restb + [b[i]];
      }
      i := i + 1;
    }
    LexLessCons(paira, RevRanks(resta), pairb, RevRanks(restb));
    if paira != pairb {
      return paira < pairb;
    }
    r := LessThanHighCard(resta, restb);
  }

  /** `LessThanTwoPair`: high pair, then low pair, then kicker. */
  function LessThanTwoPair(a: seq<PokerCard>, b: seq<PokerCard>): (r: bool)
    requires |a| == 5 && |b| == 5
    requires PairsShaped(a) && PairsShaped(b)
    ensures var (ha, la, ra) := PairsAndRest(a); var (hb, lb, rb) := PairsAndRest(b);
      r == LexLess([ha, la, ra], [hb, lb, rb])
  {
    var (ha, la, ra) := PairsAndRest(a);
    var (hb, lb, rb) := PairsAndRest(b);
    LexLessCons(ha, [la, ra], hb, [lb, rb]);
    LexLessCons(la, [ra], lb, [rb]);
    LexLessCons(ra, [], rb, []);
    if ha != hb then ha < hb
    else if la != lb then la < lb
    else ra < rb
  }

  /** `LessThanThreeOfAKind`: triple, then high kicker, then low kicker. */
  function LessThanThreeOfAKind(a: seq<PokerCard>, b: seq<PokerCard>): (r: bool)
    requires |a| == 5 && |b| == 5
    requires (a[0].rank == a[1].rank && a[0].rank == a[2].rank) || (a[1].rank == a[2].rank && a[1].rank == a[3].rank)
             || (a[2].rank == a[3].rank && a[2].rank == a[4].rank)
    requires (b[0].rank == b[1].rank && b[0].rank == b[2].rank) || (b[1].rank == b[2].rank && b[1].rank == b[3].rank)
             || (b[2].rank == b[3].rank && b[2].rank == b[4].rank)
    ensures var (ta, ha, la) := ThreeAndHighLow(a); var (tb, hb, lb) := ThreeAndHighLow(b);
      r == LexLess([ta, ha, la], [tb, hb, lb])
  {
    var (ta, ha, la) := ThreeAndHighLow(a);
    var (tb, hb, lb) := ThreeAndHighLow(b);
    LexLessCons(ta, [ha, la], tb, [hb, lb]);
    LexLessCons(ha, [la], hb, [lb]);
    LexLessCons(la, [], lb, []);
    if ta != tb then ta < tb
    else if ha != hb then ha < hb
    else la < lb
  }

  /** `LessThanFullHouse`: triple, then pair. */
  function LessThanFullHouse(a: seq<PokerCard>, b: seq<PokerCard>): (r: bool)
    requires |a| == 5 && |b| == 5
    ensures var (ta, pa) := ThreeAndPair(a); var (tb, pb) := ThreeAndPair(b);
      r == LexLess([ta, pa], [tb, pb])
  {
    var (ta, pa) := ThreeAndPair(a);
    var (tb, pb) := ThreeAndPair(b);
    LexLessCons(ta, [pa], tb, [pb]);
    LexLessCons(pa, [], pb, []);
    if ta != tb then ta < tb else pa < pb
  }

  /** `LessThanFourOfAKind`: quad, then kicker. */
  function LessThanFourOfAKind(a: seq<PokerCard>, b: seq<PokerCard>): (r: bool)
    requires |a| == 5 && |b| == 5
    ensures var (fa, ka) := FourAndRest(a); var (fb, kb) := FourAndRest(b);
      r == LexLess([fa, ka], [fb, kb])
  {
    var (fa, ka) := FourAndRest(a);
    var (fb, kb) := FourAndRest(b);
    LexLessCons(fa, [ka], fb, [kb]);
    LexLessCons(ka, [], kb, []);
    if fa != fb then fa < fb else ka < kb
  }

  /** `LessThanCardSet`: category first, then the category's tie-break; exactly the key order. */
  method LessThanCardSet(a: seq<PokerCard>, b: seq<PokerCard>) returns (r: bool)
    requires IsHand(a) && IsHand(b)
    ensures r == HandLess(a, b)
  {
    var ra, rb := GetRank(a), GetRank(b);
    var ka, kb := Key(a), Key(b);
    LexLessCons(ra.Ord(), ka[1..], rb.Ord(), kb[1..]);
    assert ka == [ra.Ord()] + ka[1..] && kb == [rb.Ord()] + kb[1..];
    if ra != rb {
      return ra.Ord() < rb.Ord();
    }
    match ra {
      case HighCard =>
        r := LessThanHighCard(a, b);
      case OnePair =>
        OnePairParts(a);
        OnePairParts(b);
        r := LessThanOnePair(a, b);
      case TwoPair =>
        r := LessThanTwoPair(a, b);
      case ThreeOfAKind =>
        r := LessThanThreeOfAKind(a, b);
      case Straight =>
        r := StraightTop(a) < StraightTop(b);
        LexLessCons(StraightTop(a), [], StraightTop(b), []);
      case StraightFlush =>
        r := StraightTop(a) < StraightTop(b);
        LexLessCons(StraightTop(a), [], StraightTop(b), []);
      case Flush =>
        r := LessThanHighCard(a, b);
      case FullHouse =>
        r := LessThanFullHouse(a, b);
      case FourOfAKind =>
        r := LessThanFourOfAKind(a, b);
      case RoyalFlush =>
        r := false;
    }
  }

  // ---------------------------------------------------------------------
  // The comparison is a strict weak order (it is handed to `sort.Sort`).
  // ---------------------------------------------------------------------

  lemma HandLessIrreflexive(a: seq<PokerCard>)
    requires IsHand(a)
    ensures !HandLess(a, a)
  {
    LexLessIrreflexive(Key(a));
  }

  lemma HandLessAsymmetric(a: seq<PokerCard>, b: seq<PokerCard>)
    requires IsHand(a) && IsHand(b)
    ensures HandLess(a, b) ==> !HandLess(b, a)
  {
    if HandLess(a, b) && HandLess(b, a) {
      LexLessTransitive(Key(a), Key(b), Key(a));
      LexLessIrreflexive(Key(a));
    }
  }

  lemma HandLessTransitive(a: seq<PokerCard>, b: seq<PokerCard>, c: seq<PokerCard>)
    requires IsHand(a) && IsHand(b) && IsHand(c)
    ensures HandLess(a, b) && HandLess(b, c) ==> HandLess(a, c)
  {
    if HandLess(a, b) && HandLess(b, c) {
      LexLessTransitive(Key(a), Key(b), Key(c));
    }
  }

  /** Two hands that neither beats are ties: the same category and the same tie-break ranks. */
  lemma HandLessTie(a: seq<PokerCard>, b: seq<PokerCard>)
    requires IsHand(a) && IsHand(b)
    requires !HandLess(a, b) && !HandLess(b, a)
    ensures GetRank(a) == GetRank(b) && Key(a) == Key(b)
  {
    LexLessTotal(Key(a), Key(b));
    assert Key(a)[0] == GetRank(a).Ord() && Key(b)[0] == GetRank(b).Ord();
  }

  /** "Does not come before" is transitive, so positions in a sorted sequence have a meaning. */
  lemma LexNotLessTransitive(x: seq<int>, y: seq<int>, z: seq<int>)
    ensures !LexLess(x, y) && !LexLess(y, z) ==> !LexLess(x, z)
  {
    if !LexLess(x, y) && !LexLess(y, z) && LexLess(x, z) {
      LexLessTotal(x, y);
      LexLessTotal(y, z);
      if LexLess(z, y) && LexLess(y, x) {
        LexLessTransitive(z, y, x);
        LexLessTransitive(x, z, x);
        LexLessIrreflexive(x);
      }
    }
  }

  /** A hand that loses to none of a chain loses to none of its end: incomparability is an equivalence. */
  lemma HandNotLessTransitive(a: seq<PokerCard>, b: seq<PokerCard>, c: seq<PokerCard>)
    requires IsHand(a) && IsHand(b) && IsHand(c)
    ensures !HandLess(a, b) && !HandLess(b, c) ==> !HandLess(a, c)
  {
    LexNotLessTransitive(Key(a), Key(b), Key(c));
  }

  /** A higher category always wins, whatever the cards. */
  lemma HandLessByCategory(a: seq<PokerCard>, b: seq<PokerCard>)
    requires IsHand(a) && IsHand(b)
    requires GetRank(a).Ord() < GetRank(b).Ord()
    ensures HandLess(a, b) && !HandLess(b, a)
  {
    assert Key(a)[0] == GetRank(a).Ord() && Key(b)[0] == GetRank(b).Ord();
  }
}
