/**
 * `PlayerHands`: the hands still in play at the showdown, the order
 * `sort.Sort` puts them in, and what that order tells the pot split.
 */
module Settlement {
  import opened Cards
  import opened Hands
  import opened Table

  /** `PlayerHand`: a seat's best hand, the seat, and what the seat has put into the pot. */
  datatype PlayerHand = PlayerHand(hand: seq<PokerCard>, index: int, bets: int)

  predicate AllHands(hs: seq<PlayerHand>)
  {
    forall k :: 0 <= k < |hs| ==> IsHand(hs[k].hand)
  }

  /**
   * The order `PlayerHands.Less` defines: the weaker hand first, and between
   * tied hands the seat that has bet more first.
   */
  predicate PlayerLess(a: PlayerHand, b: PlayerHand)
    requires IsHand(a.hand) && IsHand(b.hand)
  {
    HandLess(a.hand, b.hand) || (Key(a.hand) == Key(b.hand) && a.bets > b.bets)
  }

  /** `PlayerHands.Less`, comparing through `LessThanCardSet` in both directions. */
  method PlayerHandsLess(a: PlayerHand, b: PlayerHand) returns (r: bool)
    requires IsHand(a.hand) && IsHand(b.hand)
    ensures r == PlayerLess(a, b)
  {
    var ab := LessThanCardSet(a.hand, b.hand);
    if ab {
      r := LessThanCardSet(a.hand, b.hand);
      return;
    }
    var ba := LessThanCardSet(b.hand, a.hand);
    if !ba {
      HandLessTie(a.hand, b.hand);
      return a.bets > b.bets;
    }
    LexLessIrreflexive(Key(b.hand));
    return false;
  }

  lemma PlayerLessAsymmetric(a: PlayerHand, b: PlayerHand)
    requires IsHand(a.hand) && IsHand(b.hand)
    ensures PlayerLess(a, b) ==> !PlayerLess(b, a)
  {
    HandLessAsymmetric(a.hand, b.hand);
    if Key(a.hand) == Key(b.hand) {
      LexLessIrreflexive(Key(a.hand));
    }
  }

  /** Incomparability is transitive: `PlayerLess` is a strict weak order, as `sort.Sort` needs. */
  lemma PlayerNotLessTransitive(a: PlayerHand, b: PlayerHand, c: PlayerHand)
    requires IsHand(a.hand) && IsHand(b.hand) && IsHand(c.hand)
    ensures !PlayerLess(a, b) && !PlayerLess(b, c) ==> !PlayerLess(a, c)
  {
    if !PlayerLess(a, b) && !PlayerLess(b, c) {
      HandNotLessTransitive(a.hand, b.hand, c.hand);
      if Key(a.hand) == Key(c.hand) {
        LexLessTotal(Key(a.hand), Key(b.hand));
      }
    }
  }

  /** No hand comes after a later one. */
  predicate HandsSorted(hs: seq<PlayerHand>)
    requires AllHands(hs)
  {
    forall i, j :: 0 <= i < j < |hs| ==> !PlayerLess(hs[j], hs[i])
  }

  function InsertHand(x: PlayerHand, s: seq<PlayerHand>): (r: seq<PlayerHand>)
    requires IsHand(x.hand) && AllHands(s) && HandsSorted(s)
    ensures multiset(r) == multiset(s) + multiset{x}
    ensures AllHands(r) && HandsSorted(r)
  {
    if |s| == 0 then [x]
    else if !PlayerLess(s[0], x) then
      InsertFront(x, s);
      [x] + s
    else
      var t := InsertHand(x, s[1..]);
      InsertBehind(x, s, t);
      [s[0]] + t
  }

  lemma InsertFront(x: PlayerHand, s: seq<PlayerHand>)
    requires IsHand(x.hand) && AllHands(s) && HandsSorted(s)
    requires |s| > 0 && !PlayerLess(s[0], x)
    ensures AllHands([x] + s) && HandsSorted([x] + s)
  {
    forall j | 0 <= j < |s|
      ensures !PlayerLess(s[j], x)
    {
      PlayerNotLessTransitive(s[j], s[0], x);
    }
    ConsSorted(x, s);
  }

  lemma InsertBehind(x: PlayerHand, s: seq<PlayerHand>, t: seq<PlayerHand>)
    requires IsHand(x.hand) && AllHands(s) && HandsSorted(s)
    requires |s| > 0 && PlayerLess(s[0], x)
    requires AllHands(t) && HandsSorted(t) && multiset(t) == multiset(s[1..]) + multiset{x}
    ensures AllHands([s[0]] + t) && HandsSorted([s[0]] + t)
    ensures multiset([s[0]] + t) == multiset(s) + multiset{x}
  {
    assert s == [s[0]] + s[1..];
    BehindMembers(x, s, t);
    ConsSorted(s[0], t);
  }

  /** Past the front, `[x] + s` is `s` shifted by one place. */
  lemma ConsIndex(x: PlayerHand, s: seq<PlayerHand>)
    ensures forall k :: 0 < k <= |s| ==> ([x] + s)[k] == s[k - 1]
  {
  }

  /** A sorted sequence stays sorted with a hand in front that none of it is below. */
  lemma ConsSorted(x: PlayerHand, s: seq<PlayerHand>)
    requires IsHand(x.hand) && AllHands(s) && HandsSorted(s)
    requires forall e :: e in s ==> !PlayerLess(e, x)
    ensures AllHands([x] + s) && HandsSorted([x] + s)
  {
    var r := [x] + s;
    ConsIndex(x, s);
    assert AllHands(r) by {
      forall k | 0 <= k < |r|
        ensures IsHand(r[k].hand)
      {
        if k > 0 {
          assert r[k] == s[k - 1];
        }
      }
    }
    forall i, j | 0 <= i < j < |r|
      ensures !PlayerLess(r[j], r[i])
    {
      assert r[j] == s[j - 1];
      if i == 0 {
        assert s[j - 1] in s;
      } else {
        assert r[i] == s[i - 1];
        assert !PlayerLess(s[j - 1], s[i - 1]);
      }
    }
  }

  lemma BehindMembers(x: PlayerHand, s: seq<PlayerHand>, t: seq<PlayerHand>)
    requires IsHand(x.hand) && AllHands(s) && HandsSorted(s)
    requires |s| > 0 && PlayerLess(s[0], x)
    requires AllHands(t) && multiset(t) == multiset(s[1..]) + multiset{x}
    ensures forall e :: e in t ==> IsHand(e.hand) && !PlayerLess(e, s[0])
  {
    forall e | e in t
      ensures IsHand(e.hand) && !PlayerLess(e, s[0])
    {
      assert e in multiset(t);
      if e == x {
        PlayerLessAsymmetric(s[0], x);
      } else {
        assert e in multiset(s[1..]);
        var k :| 0 <= k < |s| - 1 && s[1..][k] == e;
        assert s[k + 1] == e;
      }
    }
  }

  /** `sort.Sort(allHands)`: the hands rearranged so that none comes after a later one. */
  function SortHands(s: seq<PlayerHand>): (r: seq<PlayerHand>)
    requires AllHands(s)
    ensures multiset(r) == multiset(s)
    ensures AllHands(r) && HandsSorted(r)
  {
    if |s| == 0 then []
    else
      assert s == [s[0]] + s[1..];
      InsertHand(s[0], SortHands(s[1..]))
  }

  /**
   * Once a hand loses to `top`, every hand sorted before it loses to `top`
   * too: the winners of a showdown are a block at the end.
   */
  lemma SortedBelowLoses(hs: seq<PlayerHand>, b: int, top: seq<PokerCard>)
    requires AllHands(hs) && HandsSorted(hs) && IsHand(top)
    requires 0 <= b < |hs| && HandLess(hs[b].hand, top)
    ensures forall k :: 0 <= k <= b ==> HandLess(hs[k].hand, top)
  {
    forall k | 0 <= k < b
      ensures HandLess(hs[k].hand, top)
    {
      assert !PlayerLess(hs[b], hs[k]);
      HandNotLessTransitive(hs[b].hand, hs[k].hand, top);
    }
  }
  /** A hand beaten by any of the sorted hands is beaten by the last, the top hand. */
  lemma BelowTop(hs: seq<PlayerHand>, k: int, a: seq<PokerCard>)
    requires AllHands(hs) && HandsSorted(hs) && 0 <= k < |hs| && IsHand(a)
    requires HandLess(a, hs[k].hand)
    ensures HandLess(a, hs[|hs| - 1].hand)
  {
    var n := |hs|;
    var top := hs[n - 1].hand;
    if k < n - 1 {
      assert !PlayerLess(hs[n - 1], hs[k]);
      assert !HandLess(top, hs[k].hand);
      HandNotLessTransitive(a, top, hs[k].hand);
    }
  }

  /**
   * The first loop of `getResultForShowdown`: counts, from the top, the hands
   * that do not lose to the best one. They form the last `winnerCount` places.
   */
  method CountWinners(hs: seq<PlayerHand>) returns (winnerCount: int)
    requires |hs| >= 1 && AllHands(hs) && HandsSorted(hs)
    ensures 1 <= winnerCount <= |hs|
    ensures forall k :: 0 <= k < |hs| ==> (k >= |hs| - winnerCount <==> !HandLess(hs[k].hand, hs[|hs| - 1].hand))
  {
    ghost var stop;
    winnerCount, stop := CountTies(hs);
    if stop >= 0 {
      SortedBelowLoses(hs, stop, hs[|hs| - 1].hand);
    }
    WinnersBlock(hs, stop);
  }

  /**
   * The loop of `CountWinners` itself: from the hand below the top one
   * downwards, every hand that does not lose to the top adds a winner, and the
   * first one that loses (`stop`, or -1 when none does) ends the count.
   */
  method CountTies(hs: seq<PlayerHand>) returns (winnerCount: int, ghost stop: int)
    requires |hs| >= 1 && AllHands(hs)
    ensures -1 <= stop <= |hs| - 2 && winnerCount == |hs| - 1 - stop
    ensures stop >= 0 ==> HandLess(hs[stop].hand, hs[|hs| - 1].hand)
    ensures forall k :: stop < k < |hs| ==> !HandLess(hs[k].hand, hs[|hs| - 1].hand)
  {
    var n := |hs|;
    var top := hs[n - 1].hand;
    assert IsHand(top);
    HandLessIrreflexive(top);
    winnerCount, stop := 1, -1;
    var i := n - 2;
    while i >= 0
      invariant -1 <= i <= n - 2 && winnerCount == n - 1 - i && stop == -1
      invariant forall k :: i < k < n ==> !HandLess(hs[k].hand, top)
    {
      var lose := LessThanCardSet(hs[i].hand, top);
      if lose {
        stop := i;
        break;
      }
      TiesStep(hs, i, top);
      winnerCount := winnerCount + 1;
      i := i - 1;
    }
  }

  /** One more hand that does not lose to `top` extends the block of ties above it. */
  lemma TiesStep(hs: seq<PlayerHand>, i: int, top: seq<PokerCard>)
    requires AllHands(hs) && IsHand(top) && 0 <= i < |hs|
    requires forall k :: i < k < |hs| ==> !HandLess(hs[k].hand, top)
    requires !HandLess(hs[i].hand, top)
    ensures forall k :: i - 1 < k < |hs| ==> !HandLess(hs[k].hand, top)
  {
  }

  /** Hands above `b` tie with the top hand and hands from `b` down lose to it: the winners are the last `|hs| - 1 - b`. */
  lemma WinnersBlock(hs: seq<PlayerHand>, b: int)
    requires |hs| >= 1 && AllHands(hs) && -1 <= b < |hs|
    requires forall k :: b < k < |hs| ==> !HandLess(hs[k].hand, hs[|hs| - 1].hand)
    requires forall k :: 0 <= k <= b ==> HandLess(hs[k].hand, hs[|hs| - 1].hand)
    ensures forall k :: 0 <= k < |hs| ==> (k >= b + 1 <==> !HandLess(hs[k].hand, hs[|hs| - 1].hand))
  {
  }

  /** `h` does not lose to `top`: with `top` the best hand of a showdown, `h` is a winner. */
  predicate Ties(h: PlayerHand, top: seq<PokerCard>)
  {
    IsHand(h.hand) && IsHand(top) && !HandLess(h.hand, top)
  }

  /** How many of the hands `hs` do not lose to `top`: with `top` the best of them, the winners. */
  function Wins(hs: seq<PlayerHand>, top: seq<PokerCard>): (w: nat)
    ensures w <= |hs|
  {
    if |hs| == 0 then 0
    else Wins(hs[..|hs| - 1], top) + (if Ties(hs[|hs| - 1], top) then 1 else 0)
  }

  /** The winners of two runs of hands put together are the winners of each. */
  lemma {:induction false} WinsAppend(a: seq<PlayerHand>, b: seq<PlayerHand>, top: seq<PokerCard>)
    ensures Wins(a + b, top) == Wins(a, top) + Wins(b, top)
    decreases |b|
  {
    if |b| == 0 {
      assert a + b == a;
    } else {
      var m := |b| - 1;
      WinsAppend(a, b[..m], top);
      assert (a + b)[..|a + b| - 1] == a + b[..m];
    }
  }

  /** Taking out the hand at `j` takes one winner away exactly when that hand wins. */
  lemma WinsDrop(t: seq<PlayerHand>, j: int, top: seq<PokerCard>)
    requires 0 <= j < |t|
    ensures multiset(t[..j] + t[j + 1..]) == multiset(t) - multiset{t[j]}
    ensures Wins(t, top) == Wins(t[..j] + t[j + 1..], top) + (if Ties(t[j], top) then 1 else 0)
  {
    var u, v := t[..j], t[j + 1..];
    assert t == u + [t[j]] + v;
    WinsAppend(u, v, top);
    WinsAppend(u, [t[j]], top);
    WinsAppend(u + [t[j]], v, top);
    assert [t[j]][..0] == [];
  }

  /** The number of winners depends only on which hands there are, not on their order. */
  lemma {:induction false} WinsPerm(s: seq<PlayerHand>, t: seq<PlayerHand>, top: seq<PokerCard>)
    requires multiset(s) == multiset(t)
    ensures Wins(s, top) == Wins(t, top)
    decreases |s|
  {
    if |s| == 0 {
      assert |t| == |multiset(t)| == 0;
    } else {
      var n := |s| - 1;
      assert s == s[..n] + [s[n]];
      assert s[n] in multiset(t);
      var j :| 0 <= j < |t| && t[j] == s[n];
      WinsDrop(t, j, top);
      WinsPerm(s[..n], t[..j] + t[j + 1..], top);
    }
  }

  /** When the winners are the last `wc` hands, there are `wc` of them. */
  lemma {:induction false} WinsBlock(hs: seq<PlayerHand>, wc: int, top: seq<PokerCard>)
    requires AllHands(hs) && IsHand(top) && 0 <= wc <= |hs|
    requires forall k :: 0 <= k < |hs| ==> (k >= |hs| - wc <==> !HandLess(hs[k].hand, top))
    ensures Wins(hs, top) == wc
    decreases |hs|
  {
    if |hs| > 0 {
      var n := |hs| - 1;
      assert AllHands(hs[..n]) by {
        assert forall k :: 0 <= k < n ==> hs[..n][k] == hs[k];
      }
      WinsBlock(hs[..n], if wc > 0 then wc - 1 else 0, top);
    }
  }

  lemma CapBound(b: int, n: int)
    requires b >= 0 && n >= 1
    ensures b <= b * n
  {
  }

  /** A winner's take: an equal share of what is left among the `wc` winners still to be paid, at most `n` times its bet. */
  function WinnerShare(bet: int, n: int, rest: int, wc: int): (get: int)
    requires bet >= 0 && n >= 1 && rest >= 0 && wc >= 1
    ensures 0 <= get <= rest && get <= bet * n
    ensures get * wc <= rest
  {
    CapBound(bet, n);
    var get := Min(bet * n, rest / wc);
    ShareBound(get, rest, wc);
    get
  }

  /** No more than an equal share of `rest` among `wc`, taken `wc` times, fits in `rest`. */
  lemma ShareBound(get: int, rest: int, wc: int)
    requires rest >= 0 && wc >= 1 && 0 <= get <= rest / wc
    ensures get <= rest && get * wc <= rest
  {
    var q := rest / wc;
    assert q * wc <= rest;
    assert (q - get) * wc >= 0;
  }

  /**
   * What the payout has handed out so far: nothing negative, no more than has
   * left the pot, no seat more than `n` times its bet, no loser more than its
   * bet, and nothing to a seat out of the hand.
   */
  ghost predicate PaidSoFar(earn: seq<int>, rest: int, pot: int, n: int, top: seq<PokerCard>,
                            states: seq<int>, hands: seq<seq<PokerCard>>, totalBets: seq<int>)
    requires |states| == Seats && |hands| == Seats && IsHand(top)
    requires forall s :: 0 <= s < Seats && states[s] == InGame ==> IsHand(hands[s])
  {
    && |earn| == Seats && |totalBets| == Seats && NonNeg(earn)
    && 0 <= rest && Sum(earn) <= pot - rest
    && (forall s :: 0 <= s < Seats ==> earn[s] <= totalBets[s] * n)
    && (forall s :: 0 <= s < Seats && states[s] == InGame && HandLess(hands[s], top) ==> earn[s] <= totalBets[s])
    && (forall s :: 0 <= s < Seats && states[s] != InGame ==> earn[s] == 0)
  }

  /** Before the first payment nothing is paid out and the whole pot is left. */
  lemma PaidStart(earn: seq<int>, pot: int, n: int, top: seq<PokerCard>,
                  states: seq<int>, hands: seq<seq<PokerCard>>, totalBets: seq<int>)
    requires |states| == Seats && |hands| == Seats && IsHand(top)
    requires forall s :: 0 <= s < Seats && states[s] == InGame ==> IsHand(hands[s])
    requires |earn| == Seats && AllZero(earn) && |totalBets| == Seats && NonNeg(totalBets) && pot >= 0 && n >= 1
    ensures PaidSoFar(earn, pot, pot, n, top, states, hands, totalBets)
  {
    SumZero(earn);
    forall s | 0 <= s < Seats
      ensures earn[s] <= totalBets[s] * n
    {
      CapBound(totalBets[s], n);
    }
  }

  /** Paying `get` out of what is left to seat `idx` keeps `PaidSoFar`. */
  lemma PayStep(earn: seq<int>, rest: int, pot: int, n: int, top: seq<PokerCard>,
                states: seq<int>, hands: seq<seq<PokerCard>>, totalBets: seq<int>, idx: int, get: int)
    requires |states| == Seats && |hands| == Seats && IsHand(top)
    requires forall s :: 0 <= s < Seats && states[s] == InGame ==> IsHand(hands[s])
    requires PaidSoFar(earn, rest, pot, n, top, states, hands, totalBets)
    requires 0 <= idx < Seats && states[idx] == InGame
    requires 0 <= get <= rest && get <= totalBets[idx] * n
    requires HandLess(hands[idx], top) ==> get <= totalBets[idx]
    ensures PaidSoFar(earn[idx := get], rest - get, pot, n, top, states, hands, totalBets)
  {
    SumUpdate(earn, idx, get);
  }

  /**
   * The second loop of `getResultForShowdown`: from the top hand down, each
   * of the `winnerCount` winners takes an equal share of what is left, capped
   * at `n` times its bet, and each loser takes back at most its bet while
   * anything is left. `rest` is what stays in the pot. Every hand is the
   * best hand `hands` holds for a seat in the hand.
   */
  method Payout(hs: seq<PlayerHand>, winnerCount: int, pot: int, states: seq<int>, hands: seq<seq<PokerCard>>,
                totalBets: seq<int>, earn0: seq<int>)
    returns (earn: seq<int>, rest: int)
    requires |hs| >= 1 && AllHands(hs) && 1 <= winnerCount <= |hs|
    requires forall k :: 0 <= k < |hs| ==> (k >= |hs| - winnerCount <==> !HandLess(hs[k].hand, hs[|hs| - 1].hand))
    requires |states| == Seats && |hands| == Seats
    requires forall s :: 0 <= s < Seats && states[s] == InGame ==> IsHand(hands[s])
    requires forall k :: 0 <= k < |hs| ==>
      0 <= hs[k].index < Seats && states[hs[k].index] == InGame && hs[k].hand == hands[hs[k].index]
    requires forall j, k :: 0 <= j < k < |hs| ==> hs[j].index != hs[k].index
    requires |totalBets| == Seats && NonNeg(totalBets) && pot >= 0
    requires |earn0| == Seats && AllZero(earn0)
    ensures |earn| == Seats && NonNeg(earn) && 0 <= rest && Sum(earn) <= pot - rest
    ensures var t := hs[|hs| - 1].index; earn[t] == Min(totalBets[t] * |hs|, pot / winnerCount)
    ensures forall s :: 0 <= s < Seats ==> earn[s] <= totalBets[s] * |hs|
    ensures forall s :: 0 <= s < Seats && states[s] == InGame && HandLess(hands[s], hs[|hs| - 1].hand) ==>
      earn[s] <= totalBets[s]
    ensures forall s :: 0 <= s < Seats && states[s] != InGame ==> earn[s] == 0
  {
    var n := |hs|;
    var top := hs[n - 1].hand;
    var wc := winnerCount;
    PaidStart(earn0, pot, n, top, states, hands, totalBets);
    earn := earn0;
    rest := pot;
    var i := n - 1;
    while i >= 0
      invariant -1 <= i <= n - 1
      invariant PaidSoFar(earn, rest, pot, n, top, states, hands, totalBets)
      invariant i >= n - winnerCount ==> wc == i - (n - winnerCount) + 1
      invariant i == n - 1 ==> rest == pot
      invariant i < n - 1 ==> earn[hs[n - 1].index] == Min(totalBets[hs[n - 1].index] * n, pot / winnerCount)
    {
      var idx := hs[i].index;
      var lose := LessThanCardSet(hs[i].hand, top);
      if lose {
        if rest > 0 {
          var get := Min(totalBets[idx], rest);
          CapBound(totalBets[idx], n);
          PayStep(earn, rest, pot, n, top, states, hands, totalBets, idx, get);
          rest := rest - get;
          earn := earn[idx := get];
        } else {
          break;
        }
      } else {
        var get := WinnerShare(totalBets[idx], n, rest, wc);
        PayStep(earn, rest, pot, n, top, states, hands, totalBets, idx, get);
        earn := earn[idx := get];
        rest := rest - get;
        wc := wc - 1;
      }
      i := i - 1;
    }
  }
}
