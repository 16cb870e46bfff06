/**
 * The ten seats of a table: who sits where, the state of each seat in the
 * current round, the clockwise search for the next seat, and the sums and
 * counts the round keeps track of.
 */
module Table {
  import opened Wrappers

  const Seats := 10

  // Round stages, in the order a round goes through them.
  const Init := 0
  const CompulsoryBets := 1
  const Preflop := 2
  const Flop := 3
  const Turn := 4
  const River := 5
  const Showdown := 6
  const End := 7

  // Seat states within a round (`Fold` in the Go code, renamed here because `Fold` is also an action).
  const Out := 0
  const InGame := 1
  const Folded := 2

  // Fixed amounts of the betting rules.
  const SmallBlind := 50
  const BigBlind := 100
  const MinRaise := 100

  /** `TexasPlayer` without its display names: who sits in the seat and how many chips they hold. */
  datatype Player = Player(userId: int, chip: int)

  /** `min` of util.go. */
  function Min(a: int, b: int): (r: int)
    ensures r <= a && r <= b
    ensures r == a || r == b
  {
    if a < b then a else b
  }

  // ---------------------------------------------------------------------
  // Sums over the ten seats.
  // ---------------------------------------------------------------------

  function Sum(s: seq<int>): int
  {
    if |s| == 0 then 0 else Sum(s[..|s| - 1]) + s[|s| - 1]
  }

  /** Changing one seat's amount changes the sum by the difference. */
  lemma {:induction false} SumUpdate(s: seq<int>, i: int, v: int)
    requires 0 <= i < |s|
    ensures Sum(s[i := v]) == Sum(s) - s[i] + v
  {
    var n := |s|;
    if i < n - 1 {
      assert s[i := v][..n - 1] == s[..n - 1][i := v];
      SumUpdate(s[..n - 1], i, v);
    } else {
      assert s[i := v][..n - 1] == s[..n - 1];
    }
  }

  predicate AllZero(s: seq<int>)
  {
    forall i :: 0 <= i < |s| ==> s[i] == 0
  }

  predicate NonNeg(s: seq<int>)
  {
    forall i :: 0 <= i < |s| ==> s[i] >= 0
  }

  lemma {:induction false} SumZero(s: seq<int>)
    requires AllZero(s)
    ensures Sum(s) == 0
  {
    if |s| > 0 {
      SumZero(s[..|s| - 1]);
    }
  }

  lemma {:induction false} SumNonNeg(s: seq<int>)
    requires NonNeg(s)
    ensures Sum(s) >= 0
  {
    if |s| > 0 {
      SumNonNeg(s[..|s| - 1]);
    }
  }

  function Zeros(): (z: seq<int>)
    ensures |z| == Seats && AllZero(z)
  {
    seq(Seats, _ => 0)
  }

  // ---------------------------------------------------------------------
  // Counting seats.
  // ---------------------------------------------------------------------

  /** Number of occupied seats (`CountUser`). */
  function CountOccupied(players: seq<Option<Player>>): nat
  {
    if |players| == 0 then 0
    else CountOccupied(players[..|players| - 1]) + (if players[|players| - 1].Some? then 1 else 0)
  }

  /** Number of occupied seats still in the hand (`CountUserInGame`). */
  function CountInGame(players: seq<Option<Player>>, states: seq<int>): nat
    requires |players| == |states|
  {
    if |players| == 0 then 0
    else
      var n := |players| - 1;
      CountInGame(players[..n], states[..n]) + (if players[n].Some? && states[n] == InGame then 1 else 0)
  }

  /** A seat outside the hand changing hands leaves the count of the hand as it is. */
  lemma {:induction false} CountInGameOut(players: seq<Option<Player>>, states: seq<int>, i: int, p: Option<Player>)
    requires |players| == |states| && 0 <= i < |players| && states[i] != InGame
    ensures CountInGame(players[i := p], states) == CountInGame(players, states)
    decreases |players|
  {
    var n := |players| - 1;
    if i < n {
      assert players[i := p][..n] == players[..n][i := p];
      CountInGameOut(players[..n], states[..n], i, p);
    } else {
      assert players[i := p][..n] == players[..n];
    }
  }

  /** A user taking an empty seat leaves the seats of the round linked and the count of the hand as it is. */
  lemma JoinOut(players: seq<Option<Player>>, states: seq<int>, i: int, p: Option<Player>)
    requires |players| == |states| && 0 <= i < |players| && players[i].None? && Linked(players, states)
    ensures Linked(players[i := p], states) && CountInGame(players[i := p], states) == CountInGame(players, states)
  {
    CountInGameOut(players, states, i, p);
  }

  /** Every seat that takes part in the round is occupied. */
  predicate Linked(players: seq<Option<Player>>, states: seq<int>)
    requires |players| == |states|
  {
    forall i :: 0 <= i < |states| && states[i] != Out ==> players[i].Some?
  }

  /** Seats that stay occupied and stay empty keep the count of the hand, whatever their chips. */
  lemma {:induction false} CountInGameSameSeats(p1: seq<Option<Player>>, p2: seq<Option<Player>>, states: seq<int>)
    requires |p1| == |p2| == |states|
    requires forall i :: 0 <= i < |p1| ==> p1[i].Some? == p2[i].Some?
    ensures CountInGame(p1, states) == CountInGame(p2, states)
    ensures Linked(p1, states) == Linked(p2, states)
  {
    if |p1| > 0 {
      var n := |p1| - 1;
      CountInGameSameSeats(p1[..n], p2[..n], states[..n]);
    }
  }

  /** A positive count names a seat. */
  lemma {:induction false} CountOccupiedWitness(players: seq<Option<Player>>)
    requires CountOccupied(players) > 0
    ensures exists j :: 0 <= j < |players| && players[j].Some?
  {
    var n := |players| - 1;
    if !players[n].Some? {
      CountOccupiedWitness(players[..n]);
      var j :| 0 <= j < n && players[..n][j].Some?;
      assert players[j].Some?;
    }
  }

  /** A positive count names a seat that is in the hand. */
  lemma {:induction false} CountInGameWitness(players: seq<Option<Player>>, states: seq<int>)
    requires |players| == |states|
    requires CountInGame(players, states) > 0
    ensures exists j :: 0 <= j < |players| && players[j].Some? && states[j] == InGame
  {
    var n := |players| - 1;
    if !(players[n].Some? && states[n] == InGame) {
      CountInGameWitness(players[..n], states[..n]);
      var j :| 0 <= j < n && players[..n][j].Some? && states[..n][j] == InGame;
      assert players[j].Some? && states[j] == InGame;
    }
  }

  /** Occupied seats are counted exactly once each: when they all play, every occupied seat is in the hand. */
  lemma {:induction false} CountInGameAll(players: seq<Option<Player>>, states: seq<int>)
    requires |players| == |states|
    requires forall i :: 0 <= i < |players| ==> (states[i] == InGame <==> players[i].Some?)
    ensures CountInGame(players, states) == CountOccupied(players)
  {
    if |players| > 0 {
      var n := |players| - 1;
      CountInGameAll(players[..n], states[..n]);
    }
  }

  /** Folding an in-hand seat takes exactly one seat out of the count. */
  lemma {:induction false} CountInGameFold(players: seq<Option<Player>>, states: seq<int>, i: int, v: int)
    requires |players| == |states| && 0 <= i < |states|
    requires players[i].Some? && states[i] == InGame && v != InGame
    ensures CountInGame(players, states[i := v]) == CountInGame(players, states) - 1
  {
    var n := |players| - 1;
    if i < n {
      assert states[i := v][..n] == states[..n][i := v];
      CountInGameFold(players[..n], states[..n], i, v);
    } else {
      assert states[i := v][..n] == states[..n];
    }
  }

  /** With only one seat left in the hand, every other seat is out of it. */
  lemma {:induction false} CountInGameOne(players: seq<Option<Player>>, states: seq<int>, i: int, j: int)
    requires |players| == |states| && CountInGame(players, states) == 1
    requires 0 <= i < j < |players|
    requires players[i].Some? && states[i] == InGame
    ensures !(players[j].Some? && states[j] == InGame)
  {
    var n := |players| - 1;
    if j < n {
      CountInGameAtLeast(players[..n], states[..n], i);
      CountInGameOne(players[..n], states[..n], i, j);
    } else {
      CountInGameAtLeast(players[..n], states[..n], i);
    }
  }

  lemma {:induction false} CountInGameAtLeast(players: seq<Option<Player>>, states: seq<int>, i: int)
    requires |players| == |states| && 0 <= i < |players|
    requires players[i].Some? && states[i] == InGame
    ensures CountInGame(players, states) >= 1
  {
    var n := |players| - 1;
    if i < n {
      CountInGameAtLeast(players[..n], states[..n], i);
    }
  }

  // ---------------------------------------------------------------------
  // Clockwise search.
  // ---------------------------------------------------------------------

  /** How many seats clockwise from `a` one has to move to reach `b`: 1..10, a full lap when `b == a`. */
  function Dist(a: int, b: int): (d: int)
    requires 0 <= a < Seats && 0 <= b < Seats
    ensures 1 <= d <= Seats && (a + d) % Seats == b
  {
    (b - a + Seats - 1) % Seats + 1
  }

  /** The seat `k` places clockwise from `index`. */
  function After(index: int, k: int): int
  {
    (index + k) % Seats
  }

  lemma DistOf(a: int, k: int)
    requires 0 <= a < Seats && 1 <= k <= Seats
    ensures Dist(a, After(a, k)) == k
  {
  }

  function Clockwise(states: seq<int>, index: int, k: int): int
    requires |states| == Seats && 0 <= index < Seats && 1 <= k <= Seats + 1
    decreases Seats + 1 - k
  {
    if k > Seats then -1
    else if states[After(index, k)] == InGame then After(index, k)
    else Clockwise(states, index, k + 1)
  }

  /** The seat `NextValidIndex(index)` returns: the first seat after `index`, going round, that is in the hand; -1 where it panics. */
  function NextSeat(states: seq<int>, index: int): int
    requires |states| == Seats && 0 <= index < Seats
  {
    Clockwise(states, index, 1)
  }

  lemma {:induction false} ClockwiseFirst(states: seq<int>, index: int, k: int)
    requires |states| == Seats && 0 <= index < Seats && 1 <= k <= Seats + 1
    requires forall j :: 1 <= j < k ==> states[After(index, j)] != InGame
    ensures var r := Clockwise(states, index, k);
      && (r == -1 <==> forall s :: 0 <= s < Seats ==> states[s] != InGame)
      && (r != -1 ==> 0 <= r < Seats && states[r] == InGame
                      && forall j :: 1 <= j < Dist(index, r) ==> states[After(index, j)] != InGame)
    decreases Seats + 1 - k
  {
    if k > Seats {
      forall s | 0 <= s < Seats
        ensures states[s] != InGame
      {
        assert states[After(index, Dist(index, s))] != InGame;
      }
    } else if states[After(index, k)] == InGame {
      DistOf(index, k);
    } else {
      ClockwiseFirst(states, index, k + 1);
    }
  }

  /**
   * `NextSeat` is the first seat in the hand strictly after `index` going
   * clockwise (possibly `index` itself after a full lap), and it exists exactly
   * when some seat is in the hand.
   */
  lemma NextSeatFirst(states: seq<int>, index: int)
    requires |states| == Seats && 0 <= index < Seats
    ensures var r := NextSeat(states, index);
      && (r == -1 <==> forall s :: 0 <= s < Seats ==> states[s] != InGame)
      && (r != -1 ==> 0 <= r < Seats && states[r] == InGame
                      && forall j :: 1 <= j < Dist(index, r) ==> states[After(index, j)] != InGame)
  {
    ClockwiseFirst(states, index, 1);
  }

  /** From `a`, the next seat in the hand is no farther than any seat `t` in the hand: the rotation closes in on `t`. */
  lemma NextSeatCloser(states: seq<int>, a: int, t: int)
    requires |states| == Seats && 0 <= a < Seats && 0 <= t < Seats
    requires states[t] == InGame && a != t
    ensures var r := NextSeat(states, a); 0 <= r < Seats && Dist(r, t) % Seats < Dist(a, t) % Seats
  {
    NextSeatFirst(states, a);
    var r := NextSeat(states, a);
    assert After(a, Dist(a, t)) == t;
    DistShrinks(a, r, t);
  }

  /** The distance clockwise from `a` to `b` without the remainder: a full lap when `b` is `a`. */
  lemma DistValue(a: int, b: int)
    requires 0 <= a < Seats && 0 <= b < Seats
    ensures Dist(a, b) == if a < b then b - a else b - a + Seats
  {
    if a < b {
      assert (b - a + Seats - 1) % Seats == b - a - 1;
    } else {
      assert (b - a + Seats - 1) % Seats == b - a + Seats - 1;
    }
  }

  /** Moving from `a` to a seat `r` no farther than `t` brings `t` nearer. */
  lemma DistShrinks(a: int, r: int, t: int)
    requires 0 <= a < Seats && 0 <= r < Seats && 0 <= t < Seats && a != t
    requires Dist(a, r) <= Dist(a, t)
    ensures Dist(r, t) % Seats < Dist(a, t) % Seats
  {
    DistValue(a, r);
    DistValue(a, t);
    DistValue(r, t);
    assert Dist(a, t) % Seats == Dist(a, t);
    if r == t {
      assert Dist(r, t) % Seats == 0;
    } else {
      assert Dist(r, t) == Dist(a, t) - Dist(a, r);
      assert Dist(r, t) % Seats == Dist(r, t);
    }
  }

  /** With a second seat in the hand, the next seat in the hand after `a` is not `a` itself. */
  lemma NextSeatOther(states: seq<int>, a: int, o: int)
    requires |states| == Seats && 0 <= a < Seats && 0 <= o < Seats
    requires states[o] == InGame && a != o
    ensures NextSeat(states, a) != a
  {
    NextSeatCloser(states, a, o);
  }

  /** A count of two names two different seats in the hand. */
  lemma {:induction false} CountInGameTwo(players: seq<Option<Player>>, states: seq<int>)
    requires |players| == |states| && CountInGame(players, states) >= 2
    ensures exists i, j :: 0 <= i < j < |players| && players[i].Some? && states[i] == InGame
                                                  && players[j].Some? && states[j] == InGame
  {
    var n := |players| - 1;
    if players[n].Some? && states[n] == InGame {
      CountInGameWitness(players[..n], states[..n]);
      var i :| 0 <= i < n && players[..n][i].Some? && states[..n][i] == InGame;
      assert players[i].Some? && states[i] == InGame;
    } else {
      CountInGameTwo(players[..n], states[..n]);
      var i, j :| 0 <= i < j < n && players[..n][i].Some? && states[..n][i] == InGame
                                 && players[..n][j].Some? && states[..n][j] == InGame;
      assert players[i].Some? && states[i] == InGame && players[j].Some? && states[j] == InGame;
    }
  }

  function ClockwiseOccupied(players: seq<Option<Player>>, index: int, k: int): int
    requires |players| == Seats && 0 <= index < Seats && 1 <= k <= Seats + 1
    decreases Seats + 1 - k
  {
    if k > Seats then -1
    else if players[After(index, k)].Some? then After(index, k)
    else ClockwiseOccupied(players, index, k + 1)
  }

  /** The next dealer chosen by `StartRound`: the first occupied seat after `index`, going round; -1 when none is. */
  function NextOccupied(players: seq<Option<Player>>, index: int): int
    requires |players| == Seats && 0 <= index < Seats
  {
    ClockwiseOccupied(players, index, 1)
  }

  lemma {:induction false} ClockwiseOccupiedFirst(players: seq<Option<Player>>, index: int, k: int)
    requires |players| == Seats && 0 <= index < Seats && 1 <= k <= Seats + 1
    requires forall j :: 1 <= j < k ==> players[After(index, j)].None?
    ensures var r := ClockwiseOccupied(players, index, k);
      && (r == -1 <==> forall s :: 0 <= s < Seats ==> players[s].None?)
      && (r != -1 ==> 0 <= r < Seats && players[r].Some?
                      && forall j :: 1 <= j < Dist(index, r) ==> players[After(index, j)].None?)
    decreases Seats + 1 - k
  {
    if k > Seats {
      forall s | 0 <= s < Seats
        ensures players[s].None?
      {
        assert players[After(index, Dist(index, s))].None?;
      }
    } else if players[After(index, k)].Some? {
      DistOf(index, k);
    } else {
      ClockwiseOccupiedFirst(players, index, k + 1);
    }
  }

  /** `NextOccupied` is the first occupied seat strictly after `index` going clockwise, and exists exactly when a seat is occupied. */
  lemma NextOccupiedFirst(players: seq<Option<Player>>, index: int)
    requires |players| == Seats && 0 <= index < Seats
    ensures var r := NextOccupied(players, index);
      && (r == -1 <==> forall s :: 0 <= s < Seats ==> players[s].None?)
      && (r != -1 ==> 0 <= r < Seats && players[r].Some?
                      && forall j :: 1 <= j < Dist(index, r) ==> players[After(index, j)].None?)
  {
    ClockwiseOccupiedFirst(players, index, 1);
  }
  // ---------------------------------------------------------------------
  // Looking seats up.
  // ---------------------------------------------------------------------

  /** The first seat, from seat 0 up, that `userID` occupies; -1 when there is none. */
  function FindUser(players: seq<Option<Player>>, userID: int): (r: int)
    ensures -1 <= r < |players|
    ensures r >= 0 ==> players[r].Some? && players[r].value.userId == userID
    ensures forall j :: 0 <= j < |players| && (r < 0 || j < r) ==> !(players[j].Some? && players[j].value.userId == userID)
  {
    if |players| == 0 then -1
    else
      var n := |players| - 1;
      var r := FindUser(players[..n], userID);
      if r >= 0 then r
      else if players[n].Some? && players[n].value.userId == userID then n
      else -1
  }

  /** With every user seated once, `FindUser` finds a seated user at their own seat. */
  lemma SeatOfUser(players: seq<Option<Player>>, i: int)
    requires 0 <= i < |players| && players[i].Some?
    requires forall a, b :: 0 <= a < b < |players| && players[a].Some? && players[b].Some? ==>
      players[a].value.userId != players[b].value.userId
    ensures FindUser(players, players[i].value.userId) == i
  {
  }

  /** The first empty seat, from seat 0 up; -1 when the table is full. */
  function FreeSeat(players: seq<Option<Player>>): (r: int)
    ensures -1 <= r < |players|
    ensures r >= 0 ==> players[r].None?
    ensures forall j :: 0 <= j < |players| && (r < 0 || j < r) ==> players[j].Some?
  {
    if |players| == 0 then -1
    else
      var n := |players| - 1;
      var r := FreeSeat(players[..n]);
      if r >= 0 then r
      else if players[n].None? then n
      else -1
  }

  /** The last seat still in the hand that `userID` occupies; -1 when there is none. */
  function SeatOf(players: seq<Option<Player>>, states: seq<int>, userID: int): (r: int)
    requires |players| == |states|
    ensures -1 <= r < |players|
    ensures r >= 0 ==> states[r] == InGame && players[r].Some? && players[r].value.userId == userID
    ensures forall j :: r < j < |players| ==> !(states[j] == InGame && players[j].Some? && players[j].value.userId == userID)
  {
    if |players| == 0 then -1
    else
      var n := |players| - 1;
      if states[n] == InGame && players[n].Some? && players[n].value.userId == userID then n
      else SeatOf(players[..n], states[..n], userID)
  }

  /** The largest amount in `s`, starting the search from 0. */
  function MaxBet(s: seq<int>): (m: int)
    ensures m >= 0
    ensures forall i :: 0 <= i < |s| ==> s[i] <= m
    ensures m == 0 || m in s
  {
    if |s| == 0 then 0
    else
      var n := |s| - 1;
      var m := MaxBet(s[..n]);
      if s[n] > m then s[n] else m
  }
}
