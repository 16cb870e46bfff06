/**
 * A table of Texas hold'em: the seated players and the round in progress,
 * the stages a round goes through, the betting actions and the settlement
 * of the pot.
 */
module Texas {
  import opened Wrappers
  import opened Cards
  import opened Hands
  import opened TopCards
  import opened Dealer
  import opened Table
  import opened Settlement

  // The messages the table answers a refused request with.
  const NotRegistered := "You need /start in the private chat at first!"
  const AlreadySeated := "You have been in this game."
  const NoFreeSeat := "There are no seats for you."
  const TooPoor := "You are too poor to join game."
  const NotSeated := "You are currently not in this game."
  const RoundGoingOn := "This round is still taking."
  const TooFewPlayers := "Not enough players to start a new round."
  const RoundNotReady := "Round is not ready."
  const NothingToCall := "You can only /check, /raise or /fold."
  const CannotCheck := "You can only /call, /raise or /fold."
  const RaiseTooSmall := "Cannot /raise less than 100."
  const RaiseTooLarge := "No enough chips for raising. /allin?"

  /** How many community cards lie on the table while the players bet in `stage`. */
  function Shown(stage: int): (k: int)
    ensures 0 <= k <= 5
    ensures stage <= Preflop <==> k == 0
    ensures stage >= River <==> k == 5
  {
    if stage <= Preflop then 0 else if stage == Flop then 3 else if stage == Turn then 4 else 5
  }

  /** Exactly the first `k` community slots hold a card. */
  predicate CommunityIs(cc: seq<Option<PokerCard>>, k: int)
    requires |cc| == 5
  {
    forall j :: 0 <= j < 5 ==> (cc[j].Some? <==> j < k)
  }

  lemma {:induction false} PresentPrefix(cc: seq<Option<PokerCard>>, k: int, n: int)
    requires |cc| == 5 && CommunityIs(cc, k) && 0 <= n <= 5
    ensures |Present(cc[..n])| == (if n < k then n else if k < 0 then 0 else k)
  {
    if n > 0 {
      PresentPrefix(cc, k, n - 1);
      assert cc[..n][..n - 1] == cc[..n - 1];
    }
  }

  /** With the first `k` slots filled, `getTopCards` sees `k` community cards. */
  lemma PresentCount(cc: seq<Option<PokerCard>>, k: int)
    requires |cc| == 5 && CommunityIs(cc, k) && 0 <= k <= 5
    ensures |Present(cc)| == k
  {
    PresentPrefix(cc, k, 5);
    assert cc[..5] == cc;
  }

  /**
   * No card of the round is in two places: the pack repeats no card, every
   * card on the table (hole cards `pc`, community cards `cc`) has left the
   * pack, and no card lies in two table slots.
   */
  predicate CardsApart(pc: seq<seq<Option<PokerCard>>>, cc: seq<Option<PokerCard>>, pack: seq<PokerCard>)
  {
    && Distinct(pack)
    && (forall i, a :: 0 <= i < |pc| && 0 <= a < |pc[i]| && Hole(pc, i, a).Some? ==> Hole(pc, i, a).value !in pack)
    && (forall k :: 0 <= k < |cc| && Board(cc, k).Some? ==> Board(cc, k).value !in pack)
    && (forall i, a, j, b ::
          (0 <= i < |pc| && 0 <= a < |pc[i]| && 0 <= j < |pc| && 0 <= b < |pc[j]| && (i != j || a != b)
           && Hole(pc, i, a).Some? && Hole(pc, j, b).Some?) ==> Hole(pc, i, a).value != Hole(pc, j, b).value)
    && (forall k, l :: 0 <= k < l < |cc| && Board(cc, k).Some? && Board(cc, l).Some? ==> Board(cc, k).value != Board(cc, l).value)
    && (forall i, a, k :: 0 <= i < |pc| && 0 <= a < |pc[i]| && 0 <= k < |cc| && Hole(pc, i, a).Some? && Board(cc, k).Some? ==>
          Hole(pc, i, a).value != Board(cc, k).value)
  }

  /** Hole card `a` of seat `i`, if dealt. */
  function Hole(pc: seq<seq<Option<PokerCard>>>, i: int, a: int): Option<PokerCard>
    requires 0 <= i < |pc| && 0 <= a < |pc[i]|
  {
    pc[i][a]
  }

  /** Community slot `k`, if dealt. */
  function Board(cc: seq<Option<PokerCard>>, k: int): Option<PokerCard>
    requires 0 <= k < |cc|
  {
    cc[k]
  }

  /** A card drawn from `pack` into hole slot `a` of seat `i`, with `pack'` what is left after it (and a burnt card), keeps the cards apart. */
  lemma HoleApart(pc: seq<seq<Option<PokerCard>>>, cc: seq<Option<PokerCard>>, pack: seq<PokerCard>,
                  c: PokerCard, pack': seq<PokerCard>, i: int, a: int)
    requires CardsApart(pc, cc, pack) && 0 <= i < |pc| && 0 <= a < |pc[i]|
    requires c in pack && c !in pack' && Distinct(pack') && forall x :: x in pack' ==> x in pack
    ensures CardsApart(pc[i := pc[i][a := Some(c)]], cc, pack')
  {
    var pc': seq<seq<Option<PokerCard>>> := pc[i := pc[i][a := Some(c)]];
    forall j, b | 0 <= j < |pc'| && 0 <= b < |pc'[j]| && pc'[j][b].Some? && (j != i || b != a)
      ensures Hole(pc', j, b) == Hole(pc, j, b) && Hole(pc, j, b).value != c
    {
    }
  }

  /** A card drawn from `pack` into community slot `k`, with `pack'` what is left after it (and a burnt card), keeps the cards apart. */
  lemma CommunityApart(pc: seq<seq<Option<PokerCard>>>, cc: seq<Option<PokerCard>>, pack: seq<PokerCard>,
                       c: PokerCard, pack': seq<PokerCard>, k: int)
    requires CardsApart(pc, cc, pack) && 0 <= k < |cc|
    requires c in pack && c !in pack' && Distinct(pack') && forall x :: x in pack' ==> x in pack
    ensures CardsApart(pc, cc[k := Some(c)], pack')
  {
    var cc': seq<Option<PokerCard>> := cc[k := Some(c)];
    forall l | 0 <= l < |cc'| && cc'[l].Some? && l != k
      ensures Board(cc', l) == Board(cc, l) && Board(cc, l).value != c
    {
    }
  }

  /** `Round`: the state of one deal, from the hole cards to the payout. */
  class Round {
    var pot: int
    const dealer: int
    var stage: int
    const cardDealer: TexasDealer
    var communityCards: seq<Option<PokerCard>>
    var userState: seq<int>
    var playerCards: seq<seq<Option<PokerCard>>>
    var topCards: seq<seq<PokerCard>>
    var totalBets: seq<int>
    var stageBets: seq<int>
    var earn: seq<int>
    var actorIndex: int
    var lastRaiser: int

    /** Every per-seat array has a slot per seat, and the seat numbers are seats. */
    ghost predicate Shaped()
      reads this
    {
      && |communityCards| == 5 && |userState| == Seats && |playerCards| == Seats && |topCards| == Seats
      && |totalBets| == Seats && |stageBets| == Seats && |earn| == Seats
      && (forall i :: 0 <= i < Seats ==> |playerCards[i]| == 2)
      && 0 <= dealer < Seats && 0 <= actorIndex < Seats && 0 <= lastRaiser < Seats
      && Init <= stage <= End
    }

    /** The money: the pot is what the seats have bet, nothing is negative, and nothing is paid out before the end. */
    ghost predicate Books()
      reads this`pot, this`totalBets, this`stageBets, this`earn, this`stage
    {
      && |totalBets| == Seats && |stageBets| == Seats && |earn| == Seats
      && pot == Sum(totalBets)
      && NonNeg(stageBets) && NonNeg(totalBets) && NonNeg(earn)
      && (stage <= Showdown ==> AllZero(earn))
      && (stage == End ==> Sum(earn) <= pot)
    }

    /** Every seat in the hand holds its two cards. */
    ghost predicate HoleDealt()
      reads this`userState, this`playerCards
    {
      && |userState| == Seats && |playerCards| == Seats
      && forall i :: 0 <= i < Seats && userState[i] == InGame ==>
           |playerCards[i]| == 2 && playerCards[i][0].Some? && playerCards[i][1].Some?
    }

    /** Every seat in the hand has its best hand worked out. */
    ghost predicate HandsKnown()
      reads this`userState, this`topCards
    {
      && |userState| == Seats && |topCards| == Seats
      && forall i :: 0 <= i < Seats && userState[i] == InGame ==> IsHand(topCards[i])
    }

    /** `k` community cards are out, the pack still holds enough for the rest, and from the flop on the best hands are known. */
    ghost predicate Dealt(k: int)
      reads this`communityCards, this`userState, this`topCards, cardDealer`cardSet
    {
      && |communityCards| == 5 && CommunityIs(communityCards, k)
      && |cardDealer.cardSet| >= 2 * (5 - k)
      && (k >= 3 ==> HandsKnown())
    }

    /** The shape, the money, the hole cards and no card dealt twice, whatever cards are on the table. */
    ghost predicate Core()
      reads this, cardDealer
    {
      && Shaped()
      && Books()
      && (Init < stage < End ==> HoleDealt())
      && CardsApart(playerCards, communityCards, cardDealer.cardSet)
    }

    /**
     * The cards match the stage: the full pack before the deal, and from the
     * blinds to the showdown the cards of the stage before or of this stage.
     */
    ghost predicate Staged()
      reads this`stage, this`communityCards, this`userState, this`topCards, cardDealer`cardSet
    {
      && (stage == Init ==> |cardDealer.cardSet| == 52 && Dealt(0))
      && (CompulsoryBets <= stage <= Showdown ==> Dealt(Shown(stage - 1)) || Dealt(Shown(stage)))
    }

    ghost predicate Valid()
      reads this, cardDealer
    {
      Core() && Staged()
    }

    /** A stage in which players act, with the cards of that stage on the table. */
    ghost predicate Betting()
      reads this`stage, this`communityCards, this`userState, this`topCards, cardDealer`cardSet
    {
      Preflop <= stage <= River && Dealt(Shown(stage))
    }

    /** What `MoveOn` needs on entering `stage`: the cards of the stage before are out. */
    ghost predicate Entering()
      reads this`stage, this`communityCards, this`userState, this`topCards, cardDealer`cardSet
    {
      && (stage == CompulsoryBets || stage == Preflop ==> Dealt(0))
      && (Flop <= stage <= Showdown ==> Dealt(Shown(stage - 1)))
    }

    /** The round `StartRound` creates: pot 0, stage `Init`, a fresh shuffled pack, every other field at its zero value. */
    constructor (dealer: int, perm: seq<int>)
      requires 0 <= dealer < Seats && IsPerm(perm)
      ensures this.dealer == dealer && pot == 0 && stage == Init
      ensures fresh(cardDealer) && |cardDealer.cardSet| == 52
      ensures Distinct(cardDealer.cardSet) && forall c :: c in cardDealer.cardSet <==> ValidCard(c)
      ensures communityCards == seq(5, _ => None)
      ensures userState == Zeros() && totalBets == Zeros() && stageBets == Zeros() && earn == Zeros()
      ensures playerCards == seq(Seats, _ => [None, None]) && topCards == seq(Seats, _ => [])
      ensures actorIndex == 0 && lastRaiser == 0
      ensures Valid()
    {
      this.dealer := dealer;
      pot := 0;
      stage := Init;
      cardDealer := new TexasDealer(perm);
      communityCards := seq(5, _ => None);
      userState := Zeros();
      playerCards := seq(Seats, _ => [None, None]);
      topCards := seq(Seats, _ => []);
      totalBets := Zeros();
      stageBets := Zeros();
      earn := Zeros();
      actorIndex := 0;
      lastRaiser := 0;
      SumZero(Zeros());
    }

    /** `NextValidIndex`: the next seat in the hand after `index`; it panics when there is none, which the precondition rules out. */
    method NextValidIndex(index: int) returns (r: int)
      requires Shaped() && 0 <= index < Seats
      requires exists s :: 0 <= s < Seats && userState[s] == InGame
      ensures r == NextSeat(userState, index)
      ensures 0 <= r < Seats && userState[r] == InGame
    {
      NextSeatFirst(userState, index);
      var i := 1;
      while i <= Seats
        invariant 1 <= i <= Seats + 1
        invariant Clockwise(userState, index, i) == NextSeat(userState, index)
      {
        if userState[(index + i) % Seats] == InGame {
          return (index + i) % Seats;
        }
        i := i + 1;
      }
      assert false;
    }

    /** The loop of `StartRound` that puts exactly the occupied seats in the hand. */
    method MarkSeats(players: seq<Option<Player>>)
      requires |players| == Seats && Valid() && stage == Init
      modifies this`userState
      ensures Valid()
      ensures forall i :: 0 <= i < Seats ==> userState[i] == (if players[i].Some? then InGame else Out)
    {
      var k := 0;
      while k < Seats
        invariant 0 <= k <= Seats && |userState| == Seats
        invariant forall j :: 0 <= j < k ==> userState[j] == (if players[j].Some? then InGame else Out)
      {
        if players[k].Some? {
          userState := userState[k := InGame];
        } else {
          userState := userState[k := Out];
        }
        k := k + 1;
      }
    }

    /** The loop that zeroes `StageBets` at the start of a betting stage. */
    method ClearStageBets()
      requires Valid()
      modifies this`stageBets
      ensures Valid() && stageBets == Zeros()
    {
      var i := 0;
      while i < Seats
        invariant 0 <= i <= Seats && |stageBets| == Seats
        invariant forall j :: 0 <= j < i ==> stageBets[j] == 0
      {
        stageBets := stageBets[i := 0];
        i := i + 1;
      }
      assert stageBets == Zeros();
    }

    /** `CardDealer.Deal()`: the index `rand.Intn` would draw is any position of the pack. */
    method DrawCard() returns (c: PokerCard)
      requires |cardDealer.cardSet| > 0
      modifies cardDealer
      ensures c in old(cardDealer.cardSet)
      ensures |cardDealer.cardSet| == old(|cardDealer.cardSet|) - 1
      ensures multiset(cardDealer.cardSet) + multiset{c} == old(multiset(cardDealer.cardSet))
      ensures forall x :: x in cardDealer.cardSet ==> x in old(cardDealer.cardSet)
      ensures old(Distinct(cardDealer.cardSet)) ==> Distinct(cardDealer.cardSet) && c !in cardDealer.cardSet
    {
      var r :| 0 <= r < |cardDealer.cardSet|;
      c := cardDealer.Deal(r);
    }

    /** The `Init` stage: every seat in the hand is cleared of winnings and gets two cards, each after a burnt one. */
    method DealHoleCards()
      requires Shaped() && |cardDealer.cardSet| == 52 && CardsApart(playerCards, communityCards, cardDealer.cardSet)
      modifies this`playerCards, this`earn, cardDealer
      ensures Shaped() && HoleDealt() && CardsApart(playerCards, communityCards, cardDealer.cardSet)
      ensures |cardDealer.cardSet| >= 52 - 4 * Seats
      ensures forall x :: x in cardDealer.cardSet ==> x in old(cardDealer.cardSet)
      ensures forall i :: 0 <= i < Seats && userState[i] == InGame ==>
        earn[i] == 0 && playerCards[i][0].value in old(cardDealer.cardSet) && playerCards[i][1].value in old(cardDealer.cardSet)
      ensures forall i :: 0 <= i < Seats && userState[i] != InGame ==>
        earn[i] == old(earn[i]) && playerCards[i] == old(playerCards[i])
    {
      var i := 0;
      while i < Seats
        invariant 0 <= i <= Seats && Shaped() && CardsApart(playerCards, communityCards, cardDealer.cardSet)
        invariant |cardDealer.cardSet| >= 52 - 4 * i
        invariant forall x :: x in cardDealer.cardSet ==> x in old(cardDealer.cardSet)
        invariant forall j :: 0 <= j < i && userState[j] == InGame ==>
          earn[j] == 0 && playerCards[j][0].Some? && playerCards[j][1].Some?
          && playerCards[j][0].value in old(cardDealer.cardSet) && playerCards[j][1].value in old(cardDealer.cardSet)
        invariant forall j :: (i <= j < Seats || (0 <= j < Seats && userState[j] != InGame)) ==>
          earn[j] == old(earn[j]) && playerCards[j] == old(playerCards[j])
      {
        if userState[i] == InGame {
          DealSeat(i);
        }
        i := i + 1;
      }
    }

    /** The deal to seat `i`: its earnings reset, then a card burnt and a card dealt, twice. */
    method DealSeat(i: int)
      requires Shaped() && 0 <= i < Seats && |cardDealer.cardSet| >= 4
      requires CardsApart(playerCards, communityCards, cardDealer.cardSet)
      modifies this`playerCards, this`earn, cardDealer
      ensures Shaped() && |cardDealer.cardSet| == old(|cardDealer.cardSet|) - 4
      ensures CardsApart(playerCards, communityCards, cardDealer.cardSet)
      ensures forall x :: x in cardDealer.cardSet ==> x in old(cardDealer.cardSet)
      ensures earn == old(earn)[i := 0]
      ensures playerCards[i][0].Some? && playerCards[i][1].Some?
      ensures playerCards[i][0].value in old(cardDealer.cardSet) && playerCards[i][1].value in old(cardDealer.cardSet)
      ensures playerCards[i][0].value != playerCards[i][1].value
      ensures playerCards[i][0].value !in cardDealer.cardSet && playerCards[i][1].value !in cardDealer.cardSet
      ensures forall j :: 0 <= j < Seats && j != i ==> playerCards[j] == old(playerCards[j])
    {
      earn := earn[i := 0];
      ghost var pack := cardDealer.cardSet;
      var burnt := DrawCard();
      var c := DrawCard();
      HoleApart(playerCards, communityCards, pack, c, cardDealer.cardSet, i, 0);
      playerCards := playerCards[i := playerCards[i][0 := Some(c)]];
      pack := cardDealer.cardSet;
      burnt := DrawCard();
      c := DrawCard();
      HoleApart(playerCards, communityCards, pack, c, cardDealer.cardSet, i, 1);
      playerCards := playerCards[i := playerCards[i][1 := Some(c)]];
    }

    /** The `Init` stage without the messages: the hole cards are dealt and the blinds come next. */
    method DealHands()
      requires Valid() && stage == Init
      modifies this`playerCards, this`earn, cardDealer, this`stage
      ensures Valid() && stage == CompulsoryBets && Entering()
      ensures forall i :: 0 <= i < Seats && userState[i] == InGame ==>
        playerCards[i][0].value in old(cardDealer.cardSet) && playerCards[i][1].value in old(cardDealer.cardSet)
    {
      DealHoleCards();
      stage := CompulsoryBets;
    }

    /** One community card: the dealer burns a card and puts the next one in `slot`. */
    method BurnAndDeal(slot: int)
      requires Core() && stage != Init && 0 <= slot < 5 && |cardDealer.cardSet| >= 2
      modifies this`communityCards, cardDealer
      ensures Core()
      ensures communityCards[slot].Some? && communityCards[slot].value in old(cardDealer.cardSet)
      ensures communityCards[slot].value !in cardDealer.cardSet
      ensures forall j :: 0 <= j < 5 && j != slot ==> communityCards[j] == old(communityCards[j])
      ensures |cardDealer.cardSet| == old(|cardDealer.cardSet|) - 2
      ensures forall x :: x in cardDealer.cardSet ==> x in old(cardDealer.cardSet)
    {
      var burnt := DrawCard();
      var c := DrawCard();
      CommunityApart(playerCards, communityCards, old(cardDealer.cardSet), c, cardDealer.cardSet, slot);
      communityCards := communityCards[slot := Some(c)];
    }

    /** Every seat in the hand holds a best hand of the cards it can see. */
    ghost predicate HandsBest()
      reads this`communityCards, this`playerCards, this`userState, this`topCards
    {
      && Showable(communityCards, playerCards, userState) && |topCards| == |userState|
      && BestBelow(communityCards, playerCards, userState, topCards, |userState|)
    }

    /** `SendMaxHand` without the messages: every seat in the hand gets its best hand from the cards it can see. */
    method SendMaxHand()
      requires Core() && HoleDealt() && |Present(communityCards)| >= 3
      modifies this`topCards
      ensures Core() && HandsKnown() && HandsBest()
      ensures forall i :: 0 <= i < Seats && userState[i] != InGame ==> topCards[i] == old(topCards[i])
    {
      topCards := BestHands(communityCards, playerCards, userState, topCards);
    }

    /**
     * `getResultForFold` and the move to `End`: the first seat still in the
     * hand, the only one left, takes the whole pot.
     */
    method SettleFold()
      requires Valid() && stage < End
      modifies this`earn, this`stage
      ensures Valid() && stage == End
      ensures forall i :: 0 <= i < Seats ==>
        earn[i] == (if userState[i] == InGame && forall j :: 0 <= j < i ==> userState[j] != InGame then pot else 0)
    {
      var i := 0;
      while i < Seats
        invariant 0 <= i <= Seats && earn == old(earn)
        invariant forall j :: 0 <= j < i ==> userState[j] != InGame
      {
        if userState[i] == InGame {
          earn := earn[i := pot];
          break;
        }
        i := i + 1;
      }
      SumNonNeg(totalBets);
      SumZero(old(earn));
      if i < Seats {
        SumUpdate(old(earn), i, pot);
      }
      stage := End;
    }

    /** `getResultForShowdown` and the move to `End`. */
    method SettleShowdown()
      requires Valid() && stage == Showdown
      requires exists s :: 0 <= s < Seats && userState[s] == InGame
      modifies this`earn, this`stage
      ensures Valid() && stage == End
      ensures ShowdownPaid(userState, topCards, totalBets, pot, earn)
    {
      assert Dealt(5);
      SumNonNeg(totalBets);
      var e := GetResultForShowdown(userState, topCards, totalBets, pot, earn);
      earn := e;
      stage := End;
    }

    /** Hands the turn to seat `actor`, with seat `raiser` closing the betting. */
    method SetTurn(actor: int, raiser: int)
      requires Valid() && 0 <= actor < Seats && 0 <= raiser < Seats
      modifies this`actorIndex, this`lastRaiser
      ensures Valid() && actorIndex == actor && lastRaiser == raiser
    {
      actorIndex := actor;
      lastRaiser := raiser;
    }

    /** `UserState[index] = Fold`: the seat leaves the hand; the cards and the best hands of the others stay as they are. */
    method MarkFolded(index: int)
      requires Valid() && Betting() && 0 <= index < Seats
      modifies this`userState
      ensures Valid() && Betting() && userState == old(userState)[index := Folded]
    {
      userState := userState[index := Folded];
    }

    /** The bookkeeping of `MakeBet`: `paid` goes into the stage bet, the total bet of seat `index` and the pot. */
    method Bet(index: int, paid: int)
      requires Valid() && 0 <= index < Seats && paid >= 0
      modifies this`stageBets, this`totalBets, this`pot
      ensures Valid()
      ensures stageBets == old(stageBets)[index := old(stageBets[index]) + paid]
      ensures totalBets == old(totalBets)[index := old(totalBets[index]) + paid]
      ensures pot == old(pot) + paid
    {
      SumUpdate(totalBets, index, totalBets[index] + paid);
      stageBets := stageBets[index := stageBets[index] + paid];
      totalBets := totalBets[index := totalBets[index] + paid];
      pot := pot + paid;
    }

    /** `Stage += 1` from a stage in which the hole cards are out and nothing has been paid. */
    method NextStage()
      requires Valid() && CompulsoryBets <= stage <= River && Dealt(Shown(stage))
      modifies this`stage
      ensures Valid() && Entering() && stage == old(stage) + 1
    {
      stage := stage + 1;
    }

    /** The end of the blinds: the seat after the big blind acts first and closes the betting, and the preflop begins. */
    method OpenPreflop(bigBlind: int)
      requires Valid() && stage == CompulsoryBets && 0 <= bigBlind < Seats
      requires exists s :: 0 <= s < Seats && userState[s] == InGame
      modifies this`actorIndex, this`lastRaiser, this`stage
      ensures Valid() && stage == Preflop && Betting()
      ensures actorIndex == NextSeat(userState, bigBlind) && lastRaiser == actorIndex
    {
      var first := NextValidIndex(bigBlind);
      var closer := NextValidIndex(bigBlind);
      SetTurn(first, closer);
      NextStage();
    }

    /** The cards of a street, each after a burnt one: slots 0-2 on the flop, 3 on the turn, 4 on the river. */
    method DealCommunity()
      requires Valid() && Flop <= stage <= River && Entering()
      modifies this`communityCards, cardDealer
      ensures Core() && CommunityIs(communityCards, Shown(stage))
      ensures |cardDealer.cardSet| == old(|cardDealer.cardSet|) - 2 * (Shown(stage) - Shown(stage - 1))
      ensures |cardDealer.cardSet| >= 2 * (5 - Shown(stage))
      ensures forall j :: 0 <= j < Shown(stage - 1) ==> communityCards[j] == old(communityCards[j])
      ensures forall j :: Shown(stage - 1) <= j < Shown(stage) ==>
        communityCards[j].Some? && communityCards[j].value in old(cardDealer.cardSet)
      ensures forall x :: x in cardDealer.cardSet ==> x in old(cardDealer.cardSet)
    {
      if stage == Flop {
        BurnAndDeal(0);
        BurnAndDeal(1);
        BurnAndDeal(2);
      } else if stage == Turn {
        BurnAndDeal(3);
      } else {
        BurnAndDeal(4);
      }
    }

    /**
     * The `Flop`, `Turn` and `River` stages before the rotation: the stage
     * bets are zeroed, the street is dealt, the seat after the button closes
     * the betting with the button about to act, and the best hands are
     * worked out.
     */
    method OpenStreet()
      requires Valid() && Flop <= stage <= River && Entering()
      requires exists s :: 0 <= s < Seats && userState[s] == InGame
      modifies this`stageBets, this`communityCards, cardDealer, this`lastRaiser, this`actorIndex, this`topCards
      ensures Valid() && Betting() && |Present(communityCards)| == Shown(stage) && HandsBest()
      ensures stageBets == Zeros()
      ensures forall j :: 0 <= j < Shown(stage - 1) ==> communityCards[j] == old(communityCards[j])
      ensures forall j :: Shown(stage - 1) <= j < Shown(stage) ==>
        communityCards[j].Some? && communityCards[j].value in old(cardDealer.cardSet)
      ensures lastRaiser == NextSeat(userState, dealer) && userState[lastRaiser] == InGame && actorIndex == dealer
    {
      ClearStageBets();
      var closer := NextValidIndex(dealer);
      SetTurn(dealer, closer);
      DealStreet();
    }

    /** The cards of a street: the community cards of the stage are dealt and every seat in the hand gets its best hand. */
    method DealStreet()
      requires Valid() && Flop <= stage <= River && Entering()
      modifies this`communityCards, cardDealer, this`topCards
      ensures Valid() && Betting() && |Present(communityCards)| == Shown(stage) && HandsBest()
      ensures forall j :: 0 <= j < Shown(stage - 1) ==> communityCards[j] == old(communityCards[j])
      ensures forall j :: Shown(stage - 1) <= j < Shown(stage) ==>
        communityCards[j].Some? && communityCards[j].value in old(cardDealer.cardSet)
    {
      DealCommunity();
      PresentCount(communityCards, Shown(stage));
      SendMaxHand();
    }
  }

  /** The cards in the hand are complete enough for `getTopCards`: three community cards or more, two hole cards per seat. */
  predicate Showable(cc: seq<Option<PokerCard>>, pcs: seq<seq<Option<PokerCard>>>, states: seq<int>)
  {
    && |cc| == 5 && |Present(cc)| >= 3 && |pcs| == |states|
    && forall i :: 0 <= i < |states| && states[i] == InGame ==> |pcs[i]| == 2 && pcs[i][0].Some? && pcs[i][1].Some?
  }

  /** The seats below `n` in the hand hold in `tops` a best hand of the cards they see. */
  ghost predicate BestBelow(cc: seq<Option<PokerCard>>, pcs: seq<seq<Option<PokerCard>>>, states: seq<int>, tops: seq<seq<PokerCard>>, n: int)
    requires Showable(cc, pcs, states) && |tops| == |states| && n <= |states|
  {
    forall i {:trigger IsTopOf(SortCards(Gathered(cc, pcs[i])), tops[i])} ::
      0 <= i < n && states[i] == InGame ==> IsTopOf(SortCards(Gathered(cc, pcs[i])), tops[i])
  }

  /** The best hand found for seat `n` in the hand extends `BestBelow` by one seat. */
  lemma BestBelowSet(cc: seq<Option<PokerCard>>, pcs: seq<seq<Option<PokerCard>>>, states: seq<int>,
                     tops: seq<seq<PokerCard>>, n: int, top: seq<PokerCard>)
    requires Showable(cc, pcs, states) && |tops| == |states| && 0 <= n < |states| && states[n] == InGame
    requires BestBelow(cc, pcs, states, tops, n)
    requires IsTopOf(SortCards(Gathered(cc, pcs[n])), top)
    ensures BestBelow(cc, pcs, states, tops[n := top], n + 1)
  {
    var t := tops[n := top];
    forall i | 0 <= i < n + 1 && states[i] == InGame
      ensures IsTopOf(SortCards(Gathered(cc, pcs[i])), t[i])
    {
      if i < n {
        assert t[i] == tops[i];
      } else {
        assert t[i] == top;
      }
    }
  }

  /** A seat out of the hand extends `BestBelow` by one seat as it is. */
  lemma BestBelowSkip(cc: seq<Option<PokerCard>>, pcs: seq<seq<Option<PokerCard>>>, states: seq<int>,
                      tops: seq<seq<PokerCard>>, n: int)
    requires Showable(cc, pcs, states) && |tops| == |states| && 0 <= n < |states| && states[n] != InGame
    requires BestBelow(cc, pcs, states, tops, n)
    ensures BestBelow(cc, pcs, states, tops, n + 1)
  {
  }

  /** The loop of `SendMaxHand`: `getTopCards` for every seat in the hand, the other entries kept. */
  method BestHands(cc: seq<Option<PokerCard>>, pcs: seq<seq<Option<PokerCard>>>, states: seq<int>, tops0: seq<seq<PokerCard>>)
    returns (tops: seq<seq<PokerCard>>)
    requires Showable(cc, pcs, states) && |tops0| == |states|
    ensures |tops| == |tops0| && BestBelow(cc, pcs, states, tops, |states|)
    ensures forall i :: 0 <= i < |states| && states[i] == InGame ==> IsHand(tops[i])
    ensures forall i :: 0 <= i < |states| && states[i] != InGame ==> tops[i] == tops0[i]
  {
    tops := tops0;
    var i := 0;
    while i < |states|
      invariant 0 <= i <= |states| && |tops| == |tops0|
      invariant BestBelow(cc, pcs, states, tops, i)
      invariant forall j :: 0 <= j < i && states[j] == InGame ==> IsHand(tops[j])
      invariant forall j :: (i <= j < |states| || (0 <= j < |states| && states[j] != InGame)) ==> tops[j] == tops0[j]
    {
      if states[i] == InGame {
        var top := GetTopCards(cc, pcs[i]);
        BestBelowSet(cc, pcs, states, tops, i, top);
        tops := tops[i := top];
      } else {
        BestBelowSkip(cc, pcs, states, tops, i);
      }
      i := i + 1;
    }
  }

  /**
   * The outcome of a showdown: nothing negative and no more than the pot is
   * paid out, no seat gets more than `n` times its bet where `n` is the number
   * of hands in play, a seat out of the hand gets nothing, and a seat whose
   * hand loses to another seat's gets back at most its bet.
   */
  ghost predicate ShowdownPaid(states: seq<int>, topCards: seq<seq<PokerCard>>, totalBets: seq<int>, pot: int, earn: seq<int>)
    requires |states| == Seats && |topCards| == Seats && |totalBets| == Seats
    requires forall s :: 0 <= s < Seats && states[s] == InGame ==> IsHand(topCards[s])
  {
    && |earn| == Seats && NonNeg(earn) && Sum(earn) <= pot
    && (forall s :: 0 <= s < Seats ==> earn[s] <= totalBets[s] * |Contenders(states, topCards, totalBets)|)
    && (forall s :: 0 <= s < Seats && states[s] != InGame ==> earn[s] == 0)
    && (forall s, t ::
          0 <= s < Seats && 0 <= t < Seats && states[s] == InGame && states[t] == InGame && HandLess(topCards[s], topCards[t])
          ==> earn[s] <= totalBets[s])
    && exists t :: 0 <= t < Seats && states[t] == InGame && TopSeat(states, topCards, t)
         && UnbeatenSeats(states, topCards, topCards[t]) >= 1
         && earn[t] == Min(totalBets[t] * |Contenders(states, topCards, totalBets)|,
                           pot / UnbeatenSeats(states, topCards, topCards[t]))
  }

  /** No seat in the hand holds a better hand than seat `t`. */
  ghost predicate TopSeat(states: seq<int>, topCards: seq<seq<PokerCard>>, t: int)
    requires |states| == Seats && |topCards| == Seats && 0 <= t < Seats && states[t] == InGame
    requires forall s :: 0 <= s < Seats && states[s] == InGame ==> IsHand(topCards[s])
  {
    forall s :: 0 <= s < Seats && states[s] == InGame ==> !HandLess(topCards[t], topCards[s])
  }

  /** How many seats in the hand hold a hand that does not lose to `top`. */
  function UnbeatenSeats(states: seq<int>, topCards: seq<seq<PokerCard>>, top: seq<PokerCard>): (w: nat)
    requires |states| == |topCards|
    ensures w <= |states|
  {
    if |states| == 0 then 0
    else
      var n := |states| - 1;
      UnbeatenSeats(states[..n], topCards[..n], top)
        + (if states[n] == InGame && IsHand(topCards[n]) && IsHand(top) && !HandLess(topCards[n], top) then 1 else 0)
  }

  /** Counted over the showdown list or over the seats, the winners are the same number. */
  lemma {:induction false} ContendersWins(states: seq<int>, topCards: seq<seq<PokerCard>>, totalBets: seq<int>, top: seq<PokerCard>)
    requires |states| == |topCards| == |totalBets|
    ensures Wins(Contenders(states, topCards, totalBets), top) == UnbeatenSeats(states, topCards, top)
    decreases |states|
  {
    if |states| > 0 {
      var n := |states| - 1;
      ContendersWins(states[..n], topCards[..n], totalBets[..n], top);
      WinsAppend(Contenders(states[..n], topCards[..n], totalBets[..n]),
                 if states[n] == InGame then [PlayerHand(topCards[n], n, totalBets[n])] else [], top);
    }
  }

  /** The seats rise along the list `c`. */
  predicate Rising(c: seq<PlayerHand>)
  {
    forall j, k :: 0 <= j < k < |c| ==> c[j].index < c[k].index
  }

  /** The seats rise along the showdown list. */
  lemma {:induction false} ContendersRising(states: seq<int>, topCards: seq<seq<PokerCard>>, totalBets: seq<int>)
    requires |states| == |topCards| == |totalBets|
    ensures Rising(Contenders(states, topCards, totalBets))
    decreases |states|
  {
    if |states| > 0 {
      var n := |states| - 1;
      var c0 := Contenders(states[..n], topCards[..n], totalBets[..n]);
      ContendersRising(states[..n], topCards[..n], totalBets[..n]);
      var last := if states[n] == InGame then [PlayerHand(topCards[n], n, totalBets[n])] else [];
      var c := Contenders(states, topCards, totalBets);
      assert c == c0 + last;
      forall j, k | 0 <= j < k < |c|
        ensures c[j].index < c[k].index
      {
        assert c[j] == c0[j] && c0[j] in c0;
        if k < |c0| {
          assert c[k] == c0[k];
        } else {
          assert c[k] == last[0];
        }
      }
    }
  }

  /** A list whose seats rise holds each hand at most once. */
  lemma {:induction false} RisingOnce(c: seq<PlayerHand>, x: PlayerHand)
    requires Rising(c)
    ensures multiset(c)[x] <= 1
    decreases |c|
  {
    if |c| > 0 {
      var n := |c| - 1;
      assert c == c[..n] + [c[n]];
      assert Rising(c[..n]) by {
        assert forall j :: 0 <= j < n ==> c[..n][j] == c[j];
      }
      RisingOnce(c[..n], x);
      if x == c[n] {
        assert forall j :: 0 <= j < n ==> c[..n][j].index < x.index;
        assert x !in c[..n];
      }
    }
  }

  /** A value found at two places of a sequence occurs in it at least twice. */
  lemma TwiceIn<T>(hs: seq<T>, j: int, k: int)
    requires 0 <= j < k < |hs| && hs[j] == hs[k]
    ensures multiset(hs)[hs[k]] >= 2
  {
    assert hs == hs[..k] + [hs[k]] + hs[k + 1..];
    assert hs[j] in hs[..k];
  }

  /** The sorted hands of a showdown: one per seat in the hand, each that seat's best hand. */
  lemma SortedContenders(states: seq<int>, topCards: seq<seq<PokerCard>>, totalBets: seq<int>)
    requires |states| == Seats && |topCards| == Seats && |totalBets| == Seats
    requires forall s :: 0 <= s < Seats && states[s] == InGame ==> IsHand(topCards[s])
    ensures AllHands(Contenders(states, topCards, totalBets))
    ensures var hs := SortHands(Contenders(states, topCards, totalBets));
      && |hs| == |Contenders(states, topCards, totalBets)|
      && (forall k :: 0 <= k < |hs| ==>
            0 <= hs[k].index < Seats && states[hs[k].index] == InGame && hs[k].hand == topCards[hs[k].index])
      && (forall t :: 0 <= t < Seats && states[t] == InGame ==> PlayerHand(topCards[t], t, totalBets[t]) in hs)
  {
    var c := Contenders(states, topCards, totalBets);
    forall k | 0 <= k < |c|
      ensures IsHand(c[k].hand)
    {
      assert c[k] in c;
    }
    var hs := SortHands(c);
    assert |hs| == |multiset(hs)| == |multiset(c)| == |c|;
    forall k | 0 <= k < |hs|
      ensures 0 <= hs[k].index < Seats && states[hs[k].index] == InGame && hs[k].hand == topCards[hs[k].index]
    {
      assert hs[k] in multiset(c);
    }
    forall t | 0 <= t < Seats && states[t] == InGame
      ensures PlayerHand(topCards[t], t, totalBets[t]) in hs
    {
      assert PlayerHand(topCards[t], t, totalBets[t]) in multiset(c);
    }
  }

  /** The sorted showdown list holds each seat in the hand once. */
  lemma SortedDistinct(states: seq<int>, topCards: seq<seq<PokerCard>>, totalBets: seq<int>)
    requires |states| == Seats && |topCards| == Seats && |totalBets| == Seats
    requires AllHands(Contenders(states, topCards, totalBets))
    ensures var hs := SortHands(Contenders(states, topCards, totalBets));
      forall j, k :: 0 <= j < k < |hs| ==> hs[j].index != hs[k].index
  {
    var c := Contenders(states, topCards, totalBets);
    ContendersRising(states, topCards, totalBets);
    PermRising(c, SortHands(c));
  }

  /** Rearranging a list whose seats rise leaves no seat twice. */
  lemma PermRising(c: seq<PlayerHand>, hs: seq<PlayerHand>)
    requires Rising(c)
    requires multiset(c) == multiset(hs)
    ensures forall j, k :: 0 <= j < k < |hs| ==> hs[j].index != hs[k].index
  {
    forall j, k | 0 <= j < k < |hs|
      ensures hs[j].index != hs[k].index
    {
      if hs[j].index == hs[k].index {
        assert hs[j] in multiset(c) && hs[k] in multiset(c);
        var p :| 0 <= p < |c| && c[p] == hs[j];
        var q :| 0 <= q < |c| && c[q] == hs[k];
        assert p == q;
        TwiceIn(hs, j, k);
        RisingOnce(c, hs[k]);
      }
    }
  }

  /** In a showdown, a seat beaten by another seat is beaten by the top hand. */
  lemma BeatenByTop(states: seq<int>, topCards: seq<seq<PokerCard>>, totalBets: seq<int>, hs: seq<PlayerHand>)
    requires |states| == Seats && |topCards| == Seats && |totalBets| == Seats
    requires forall s :: 0 <= s < Seats && states[s] == InGame ==> IsHand(topCards[s])
    requires AllHands(Contenders(states, topCards, totalBets))
    requires hs == SortHands(Contenders(states, topCards, totalBets)) && |hs| >= 1
    requires forall t :: 0 <= t < Seats && states[t] == InGame ==> PlayerHand(topCards[t], t, totalBets[t]) in hs
    ensures forall s, t ::
      0 <= s < Seats && 0 <= t < Seats && states[s] == InGame && states[t] == InGame && HandLess(topCards[s], topCards[t])
      ==> HandLess(topCards[s], hs[|hs| - 1].hand)
  {
    forall s, t |
      0 <= s < Seats && 0 <= t < Seats && states[s] == InGame && states[t] == InGame && HandLess(topCards[s], topCards[t])
      ensures HandLess(topCards[s], hs[|hs| - 1].hand)
    {
      var k :| 0 <= k < |hs| && hs[k] == PlayerHand(topCards[t], t, totalBets[t]);
      BelowTop(hs, k, topCards[s]);
    }
  }

  /**
   * `getResultForShowdown`: the hands in play, sorted by `PlayerHands.Less`,
   * the winners counted from the top and the pot paid out.
   */
  method GetResultForShowdown(states: seq<int>, topCards: seq<seq<PokerCard>>, totalBets: seq<int>, pot: int, earn0: seq<int>)
    returns (earn: seq<int>)
    requires |states| == Seats && |topCards| == Seats && |totalBets| == Seats
    requires forall s :: 0 <= s < Seats && states[s] == InGame ==> IsHand(topCards[s])
    requires exists s :: 0 <= s < Seats && states[s] == InGame
    requires NonNeg(totalBets) && pot >= 0 && |earn0| == Seats && AllZero(earn0)
    ensures ShowdownPaid(states, topCards, totalBets, pot, earn)
  {
    SortedContenders(states, topCards, totalBets);
    SortedDistinct(states, topCards, totalBets);
    var allHands := SortHands(Contenders(states, topCards, totalBets));
    ghost var w :| 0 <= w < Seats && states[w] == InGame;
    assert PlayerHand(topCards[w], w, totalBets[w]) in allHands;
    var winnerCount := CountWinners(allHands);
    var rest;
    earn, rest := Payout(allHands, winnerCount, pot, states, topCards, totalBets, earn0);
    BeatenByTop(states, topCards, totalBets, allHands);
    TopShare(states, topCards, totalBets, allHands, winnerCount);
  }

  /**
   * The seat of the top hand of the sorted showdown list holds a hand no seat
   * in the hand beats, and the winners it shares the pot with are all the
   * seats in the hand whose hands do not lose to it.
   */
  lemma TopShare(states: seq<int>, topCards: seq<seq<PokerCard>>, totalBets: seq<int>, hs: seq<PlayerHand>, winnerCount: int)
    requires |states| == Seats && |topCards| == Seats && |totalBets| == Seats
    requires forall s :: 0 <= s < Seats && states[s] == InGame ==> IsHand(topCards[s])
    requires AllHands(Contenders(states, topCards, totalBets))
    requires hs == SortHands(Contenders(states, topCards, totalBets)) && |hs| >= 1
    requires forall k :: 0 <= k < |hs| ==>
      0 <= hs[k].index < Seats && states[hs[k].index] == InGame && hs[k].hand == topCards[hs[k].index]
    requires forall t :: 0 <= t < Seats && states[t] == InGame ==> PlayerHand(topCards[t], t, totalBets[t]) in hs
    requires 1 <= winnerCount <= |hs|
    requires forall k :: 0 <= k < |hs| ==> (k >= |hs| - winnerCount <==> !HandLess(hs[k].hand, hs[|hs| - 1].hand))
    ensures var t := hs[|hs| - 1].index;
      TopSeat(states, topCards, t) && UnbeatenSeats(states, topCards, topCards[t]) == winnerCount
  {
    var top := hs[|hs| - 1].hand;
    TopUnbeaten(states, topCards, totalBets, hs);
    WinsBlock(hs, winnerCount, top);
    WinsPerm(hs, Contenders(states, topCards, totalBets), top);
    ContendersWins(states, topCards, totalBets, top);
  }

  /** No seat in the hand beats the top hand of the sorted showdown list. */
  lemma TopUnbeaten(states: seq<int>, topCards: seq<seq<PokerCard>>, totalBets: seq<int>, hs: seq<PlayerHand>)
    requires |states| == Seats && |topCards| == Seats && |totalBets| == Seats
    requires forall s :: 0 <= s < Seats && states[s] == InGame ==> IsHand(topCards[s])
    requires AllHands(hs) && HandsSorted(hs) && |hs| >= 1
    requires var t := hs[|hs| - 1].index; 0 <= t < Seats && states[t] == InGame && hs[|hs| - 1].hand == topCards[t]
    requires forall t :: 0 <= t < Seats && states[t] == InGame ==> PlayerHand(topCards[t], t, totalBets[t]) in hs
    ensures TopSeat(states, topCards, hs[|hs| - 1].index)
  {
    var n := |hs|;
    var top := hs[n - 1].hand;
    forall s | 0 <= s < Seats && states[s] == InGame
      ensures !HandLess(top, topCards[s])
    {
      var k :| 0 <= k < n && hs[k] == PlayerHand(topCards[s], s, totalBets[s]);
      if k < n - 1 {
        assert !PlayerLess(hs[n - 1], hs[k]);
      } else {
        HandLessIrreflexive(top);
      }
    }
  }

  /** What `MakeBet` takes from a seat asked for `amount`: no more than the seat holds. */
  function Paid(p: Option<Player>, amount: int): int
    requires p.Some?
  {
    Min(p.value.chip, amount)
  }

  /**
   * What a raise of `amount` costs a seat whose stage bet is `bet` when the
   * largest stage bet is `max`: it matches `max` and adds `amount` on top.
   */
  function RaiseCost(amount: int, max: int, bet: int): (delta: int)
    ensures bet + delta == max + amount
  {
    amount + (max - bet)
  }

  /** The seats after seat `index` has bet `amount`. */
  function AfterBet(players: seq<Option<Player>>, index: int, amount: int): seq<Option<Player>>
    requires 0 <= index < |players| && players[index].Some?
  {
    players[index := Some(players[index].value.(chip := players[index].value.chip - Paid(players[index], amount)))]
  }

  /** The seat that bets keeps its user and loses what it pays; every other seat stays. */
  lemma AfterBetSeat(players: seq<Option<Player>>, index: int, amount: int)
    requires 0 <= index < |players| && players[index].Some?
    ensures |AfterBet(players, index, amount)| == |players|
    ensures AfterBet(players, index, amount)[index] ==
      Some(players[index].value.(chip := players[index].value.chip - Paid(players[index], amount)))
    ensures forall i :: 0 <= i < |players| && i != index ==> AfterBet(players, index, amount)[i] == players[i]
  {
  }

  /**
   * The rotation of `NextPlayer` comes to a stop: the last raiser is still in
   * the hand, or some seat in the hand still has chips to bet.
   */
  predicate WillStop(players: seq<Option<Player>>, states: seq<int>, lastRaiser: int)
    requires |players| == Seats && |states| == Seats && 0 <= lastRaiser < Seats
  {
    || states[lastRaiser] == InGame
    || exists i :: 0 <= i < Seats && states[i] == InGame && players[i].Some? && players[i].value.chip > 0
  }

  /**
   * Without `WillStop` the loop of `NextPlayer` never ends: whatever walk the
   * turn has made from seat `a`, its last seat is in the hand, is not the last
   * raiser and has no chips, so neither way out of the loop is taken and the
   * walk goes on by one more seat. This happens once the last raiser has
   * folded and every other seat in the hand is all in.
   */
  lemma RotationHangs(players: seq<Option<Player>>, states: seq<int>, lastRaiser: int, a: int, path: seq<int>)
    requires |players| == Seats && |states| == Seats && 0 <= lastRaiser < Seats && 0 <= a < Seats
    requires Linked(players, states) && states[a] == InGame
    requires !WillStop(players, states, lastRaiser)
    requires |path| >= 1 && path[0] == NextSeat(states, a) && Walked(players, states, path)
    ensures var last := path[|path| - 1];
      && 0 <= last < Seats && states[last] == InGame && last != lastRaiser
      && players[last].Some? && players[last].value.chip <= 0
      && Walked(players, states, path + [NextSeat(states, last)])
  {
    if |path| == 1 {
      NextSeatFirst(states, a);
    } else {
      NextSeatFirst(states, path[|path| - 2]);
    }
    var last := path[|path| - 1];
    WalkedExtend(players, states, path, NextSeat(states, last));
  }

  /**
   * Each seat of `path` but the last is in the hand and has no chips left, and
   * is followed by the next seat in the hand after it: the turn passes over it.
   */
  ghost predicate Walked(players: seq<Option<Player>>, states: seq<int>, path: seq<int>)
    requires |players| == Seats && |states| == Seats
  {
    |path| <= 1 ||
      var k := |path| - 2;
      && Walked(players, states, path[..k + 1])
      && 0 <= path[k] < Seats && states[path[k]] == InGame
      && path[k + 1] == NextSeat(states, path[k])
      && players[path[k]].Some? && players[path[k]].value.chip <= 0
  }

  /** A walk goes on by one seat from a last seat that is passed over. */
  lemma WalkedExtend(players: seq<Option<Player>>, states: seq<int>, path: seq<int>, next: int)
    requires |players| == Seats && |states| == Seats && |path| >= 1 && Walked(players, states, path)
    requires var a := path[|path| - 1];
      && 0 <= a < Seats && states[a] == InGame && next == NextSeat(states, a)
      && players[a].Some? && players[a].value.chip <= 0
    ensures Walked(players, states, path + [next])
  {
    assert (path + [next])[..|path|] == path;
  }

  /** `Walked` step by step: every seat of the path but the last is passed over on the way to the next. */
  lemma {:induction false} WalkedSteps(players: seq<Option<Player>>, states: seq<int>, path: seq<int>)
    requires |players| == Seats && |states| == Seats
    ensures Walked(players, states, path) <==>
      forall k :: 0 <= k < |path| - 1 ==>
        && 0 <= path[k] < Seats && states[path[k]] == InGame
        && path[k + 1] == NextSeat(states, path[k])
        && players[path[k]].Some? && players[path[k]].value.chip <= 0
  {
    if |path| > 1 {
      var n := |path| - 1;
      WalkedSteps(players, states, path[..n]);
      assert forall k :: 0 <= k < n ==> path[..n][k] == path[k];
    }
  }

  /**
   * Where the loop of `NextPlayer` may stop, started from seat `actor0`:
   * `path` walks on from the seat after `actor0` over seats in the hand with
   * no chips. It ends at the last raiser with its `ignoreTimes` passes used up
   * (`advance`, the betting stage is over), or at a seat with chips that has
   * not used up those passes (it bets next).
   */
  ghost predicate Stops(players: seq<Option<Player>>, states: seq<int>, actor0: int, lastRaiser: int, ignoreTimes: int,
                        advance: bool, path: seq<int>)
    requires |players| == Seats && |states| == Seats && 0 <= actor0 < Seats
  {
    && |path| >= 1 && path[0] == NextSeat(states, actor0) && Walked(players, states, path)
    && var last := path[|path| - 1];
    && 0 <= last < Seats && states[last] == InGame
    && (advance ==> last == lastRaiser && multiset(path[..|path| - 1])[lastRaiser] == ignoreTimes)
    && (!advance ==> players[last].Some? && players[last].value.chip > 0 && multiset(path)[lastRaiser] <= ignoreTimes)
  }

  /**
   * The stage is over exactly when the walk has met the last raiser more than
   * `ignoreTimes` times; before its last seat it never has.
   */
  lemma StopsCount(players: seq<Option<Player>>, states: seq<int>, actor0: int, lastRaiser: int, ignoreTimes: int,
                   advance: bool, path: seq<int>)
    requires |players| == Seats && |states| == Seats && 0 <= actor0 < Seats
    requires Stops(players, states, actor0, lastRaiser, ignoreTimes, advance, path)
    ensures advance <==> multiset(path)[lastRaiser] > ignoreTimes
    ensures multiset(path[..|path| - 1])[lastRaiser] <= ignoreTimes
  {
    var n := |path| - 1;
    assert path == path[..n] + [path[n]];
  }

  /** Two walks from the same seat agree seat by seat. */
  lemma {:induction false} WalkAgree(players: seq<Option<Player>>, states: seq<int>, p: seq<int>, q: seq<int>, k: int)
    requires |players| == Seats && |states| == Seats
    requires Walked(players, states, p) && Walked(players, states, q)
    requires |p| >= 1 && |q| >= 1 && p[0] == q[0] && 0 <= k < |p| && k < |q|
    ensures p[k] == q[k]
  {
    if k > 0 {
      WalkAgree(players, states, p, q, k - 1);
      WalkedSteps(players, states, p);
      WalkedSteps(players, states, q);
    }
  }

  /** Every seat of a walk but the last is passed over: it is in the hand with no chips. */
  lemma WalkInterior(players: seq<Option<Player>>, states: seq<int>, q: seq<int>, m: int)
    requires |players| == Seats && |states| == Seats && Walked(players, states, q) && 0 <= m < |q| - 1
    ensures 0 <= q[m] < Seats && players[q[m]].Some? && players[q[m]].value.chip <= 0
  {
    WalkedSteps(players, states, q);
  }

  /** Two walks from the same seat agree on their common length. */
  lemma WalksAgree(players: seq<Option<Player>>, states: seq<int>, p: seq<int>, q: seq<int>)
    requires |players| == Seats && |states| == Seats
    requires Walked(players, states, p) && Walked(players, states, q)
    requires 1 <= |p| <= |q| && p[0] == q[0]
    ensures q[..|p|] == p
  {
    forall k | 0 <= k < |p|
      ensures p[k] == q[k]
    {
      WalkAgree(players, states, p, q, k);
    }
  }

  /** A longer prefix of a walk meets a seat no fewer times. */
  lemma CountPrefix(p: seq<int>, i: int, j: int, x: int)
    requires 0 <= i <= j <= |p|
    ensures multiset(p[..i])[x] <= multiset(p[..j])[x]
  {
    assert p[..j] == p[..i] + p[i..j];
  }

  /**
   * A walk `q` that goes on past a place `p` where the loop stops has met the
   * last raiser more than `ignoreTimes` times before its last seat.
   */
  lemma PastStop(players: seq<Option<Player>>, states: seq<int>, actor0: int, lastRaiser: int, ignoreTimes: int,
                 advance: bool, p: seq<int>, q: seq<int>)
    requires |players| == Seats && |states| == Seats && 0 <= actor0 < Seats
    requires Stops(players, states, actor0, lastRaiser, ignoreTimes, advance, p)
    requires Walked(players, states, q) && |q| >= 1 && q[0] == p[0]
    ensures |p| < |q| ==> multiset(q[..|q| - 1])[lastRaiser] > ignoreTimes
  {
    if |p| < |q| {
      var m := |p| - 1;
      WalksAgree(players, states, p, q);
      WalkInterior(players, states, q, m);
      assert q[m] == p[m];
      assert advance;
      StopsCount(players, states, actor0, lastRaiser, ignoreTimes, advance, p);
      CountPrefix(q, |p|, |q| - 1, lastRaiser);
    }
  }

  /**
   * The loop of `NextPlayer` has one outcome: whether the stage closes and
   * which seats the turn visits are fixed by the seats, the states, the
   * starting actor, the last raiser and `ignoreTimes`.
   */
  lemma StopsUnique(players: seq<Option<Player>>, states: seq<int>, actor0: int, lastRaiser: int, ignoreTimes: int,
                    a1: bool, p1: seq<int>, a2: bool, p2: seq<int>)
    requires |players| == Seats && |states| == Seats && 0 <= actor0 < Seats
    requires Stops(players, states, actor0, lastRaiser, ignoreTimes, a1, p1)
    requires Stops(players, states, actor0, lastRaiser, ignoreTimes, a2, p2)
    ensures a1 == a2 && p1 == p2
  {
    PastStop(players, states, actor0, lastRaiser, ignoreTimes, a1, p1, p2);
    PastStop(players, states, actor0, lastRaiser, ignoreTimes, a2, p2, p1);
    StopsCount(players, states, actor0, lastRaiser, ignoreTimes, a1, p1);
    StopsCount(players, states, actor0, lastRaiser, ignoreTimes, a2, p2);
    assert |p1| == |p2|;
    WalksAgree(players, states, p1, p2);
    assert p1 == p2[..|p2|] == p2;
  }

  /**
   * The loop of `NextPlayer`, started from seat `actor0`: the turn moves on to
   * the next seat in the hand, passing over seats with no chips left, until a
   * seat that can bet is reached (`advance` false) or the last raiser is
   * reached with the `ignoreTimes` passes over it used up (`advance` true).
   * `path` is the sequence of seats the turn visits.
   */
  method Rotate(players: seq<Option<Player>>, states: seq<int>, actor0: int, lastRaiser: int, ignoreTimes: int)
    returns (actor: int, advance: bool, ghost path: seq<int>)
    requires |players| == Seats && |states| == Seats && 0 <= actor0 < Seats && 0 <= lastRaiser < Seats
    requires Linked(players, states) && exists s :: 0 <= s < Seats && states[s] == InGame
    requires ignoreTimes >= 0 && WillStop(players, states, lastRaiser)
    ensures 0 <= actor < Seats && |path| >= 1 && path[|path| - 1] == actor
    ensures Stops(players, states, actor0, lastRaiser, ignoreTimes, advance, path)
  {
    var ignore := ignoreTimes;
    var breakForBet := false;
    NextSeatFirst(states, actor0);
    actor := NextSeat(states, actor0);
    path := [actor];
    ghost var prefix: seq<int> := [];
    ghost var target := if states[lastRaiser] == InGame then lastRaiser
      else var s :| 0 <= s < Seats && states[s] == InGame && players[s].Some? && players[s].value.chip > 0; s;
    while actor != lastRaiser || ignore > 0
      invariant 0 <= ignore <= ignoreTimes && !breakForBet
      invariant 0 <= actor < Seats && states[actor] == InGame
      invariant 0 <= target < Seats && states[target] == InGame
      invariant target == lastRaiser || (states[lastRaiser] != InGame && players[target].value.chip > 0)
      invariant path == prefix + [actor] && path[0] == NextSeat(states, actor0)
      invariant Walked(players, states, path)
      invariant multiset(prefix)[lastRaiser] == ignoreTimes - ignore
      decreases ignore, Dist(actor, target) % Seats
    {
      if actor == lastRaiser {
        ignore := ignore - 1;
      }
      if players[actor].value.chip > 0 {
        assert multiset(path)[lastRaiser] <= ignoreTimes by {
          assert path == prefix + [actor];
        }
        breakForBet := true;
        break;
      }
      if actor != target {
        NextSeatCloser(states, actor, target);
      }
      NextSeatFirst(states, actor);
      var next := NextSeat(states, actor);
      WalkedExtend(players, states, path, next);
      prefix := path;
      path := path + [next];
      actor := next;
    }
    assert path[..|path| - 1] == prefix;
    advance := actor == lastRaiser && !breakForBet;
  }

  /** The dealer search of `StartRound`: the button moves to the next occupied seat, going round from `dealer`. */
  method NextDealer(players: seq<Option<Player>>, dealer: int) returns (d: int)
    requires |players| == Seats && 0 <= dealer < Seats
    requires exists s :: 0 <= s < Seats && players[s].Some?
    ensures d == NextOccupied(players, dealer)
    ensures 0 <= d < Seats && players[d].Some?
  {
    d := -1;
    var i := 1;
    while i <= Seats
      invariant 1 <= i <= Seats + 1 && d == -1
      invariant ClockwiseOccupied(players, dealer, i) == NextOccupied(players, dealer)
    {
      if players[(dealer + i) % Seats].Some? {
        d := (dealer + i) % Seats;
        break;
      }
      i := i + 1;
    }
    NextOccupiedFirst(players, dealer);
  }

  /**
   * A seat after the payout at the end of a round: a seat that took part is
   * credited its winnings unless it folded, and leaves the table once it has
   * no chips left.
   */
  function Settled(p: Option<Player>, state: int, earn: int): (r: Option<Player>)
    ensures state == Out ==> r == p
    ensures r.Some? ==> p.Some? && r.value.userId == p.value.userId && (state != Out ==> r.value.chip > 0)
    ensures state == Folded && p.Some? && p.value.chip > 0 ==> r == p
    ensures state == InGame && p.Some? && p.value.chip + earn > 0 ==> r == Some(p.value.(chip := p.value.chip + earn))
    ensures state != Out && p.Some? && p.value.chip + (if state == Folded then 0 else earn) <= 0 ==> r.None?
  {
    if state == Out || p.None? then p
    else
      var chip := p.value.chip + (if state == Folded then 0 else earn);
      if chip <= 0 then None else Some(p.value.(chip := chip))
  }

  /** The hands `getResultForShowdown` collects: one per seat in the hand, in seat order. */
  function Contenders(states: seq<int>, topCards: seq<seq<PokerCard>>, totalBets: seq<int>): (r: seq<PlayerHand>)
    requires |states| == |topCards| == |totalBets|
    ensures |r| <= |states|
    ensures forall h :: h in r ==>
      0 <= h.index < |states| && states[h.index] == InGame && h.hand == topCards[h.index] && h.bets == totalBets[h.index]
    ensures forall i :: 0 <= i < |states| && states[i] == InGame ==> PlayerHand(topCards[i], i, totalBets[i]) in r
  {
    if |states| == 0 then []
    else
      var n := |states| - 1;
      Contenders(states[..n], topCards[..n], totalBets[..n])
        + (if states[n] == InGame then [PlayerHand(topCards[n], n, totalBets[n])] else [])
  }

  /**
   * `getMaxAndCurrentUserIndex`: the largest stage bet and the seat of
   * `userID` in the hand, over the seats, their states and their stage bets.
   */
  method GetMaxAndCurrentUserIndex(players: seq<Option<Player>>, states: seq<int>, stageBets: seq<int>, userID: int)
    returns (max: int, index: int)
    requires |players| == Seats && |states| == Seats && |stageBets| == Seats
    requires forall i :: 0 <= i < Seats && states[i] == InGame ==> players[i].Some?
    ensures max == MaxBet(stageBets)
    ensures index == SeatOf(players, states, userID)
  {
    index := -1;
    max := 0;
    var i := 0;
    while i < Seats
      invariant 0 <= i <= Seats
      invariant index == SeatOf(players[..i], states[..i], userID)
      invariant max == MaxBet(stageBets[..i])
    {
      assert players[..i + 1][..i] == players[..i];
      assert states[..i + 1][..i] == states[..i];
      assert stageBets[..i + 1][..i] == stageBets[..i];
      if states[i] == InGame && players[i].value.userId == userID {
        index := i;
      }
      if stageBets[i] > max {
        max := stageBets[i];
      }
      i := i + 1;
    }
    assert players[..Seats] == players && states[..Seats] == states;
    assert stageBets[..Seats] == stageBets;
  }

  /** `Texas`: the ten seats of a table, the dealer button and the round being played. */
  class Texas {
    var players: seq<Option<Player>>
    var dealer: int
    var maxChip: int
    var round: Round?

    ghost function Repr(): set<object>
      reads this
    {
      if round == null then {this} else {this, round, round.cardDealer}
    }

    /** Ten seats, non-negative stacks, and nobody sits twice. */
    ghost predicate Seated()
      reads this
    {
      && |players| == Seats && 0 <= dealer < Seats && maxChip >= 0
      && (forall i :: 0 <= i < Seats && players[i].Some? ==> players[i].value.chip >= 0)
      && (forall i, j :: 0 <= i < j < Seats && players[i].Some? && players[j].Some? ==>
            players[i].value.userId != players[j].value.userId)
    }

    ghost predicate Valid()
      reads Repr()
    {
      && Seated()
      && (round != null ==>
            && round.Valid()
            && (round.stage < End ==> Linked(players, round.userState) && CountInGame(players, round.userState) >= 2))
    }

    /** `NewTexas`: an empty table. */
    constructor (maxChip: int)
      requires maxChip >= 0
      ensures players == seq(Seats, _ => None) && dealer == 0 && this.maxChip == maxChip && round == null
      ensures Valid()
    {
      players := seq(Seats, _ => None);
      dealer := 0;
      this.maxChip := maxChip;
      round := null;
    }

    /** `CountUser`: the number of occupied seats. */
    method CountUser() returns (count: int)
      requires |players| == Seats
      ensures count == CountOccupied(players)
    {
      count := 0;
      var i := 0;
      while i < Seats
        invariant 0 <= i <= Seats
        invariant count == CountOccupied(players[..i])
      {
        assert players[..i + 1][..i] == players[..i];
        if players[i].Some? {
          count := count + 1;
        }
        i := i + 1;
      }
      assert players[..Seats] == players;
    }

    /** `CountUserInGame`: the number of occupied seats still in the hand. */
    method CountUserInGame() returns (count: int)
      requires |players| == Seats && round != null && |round.userState| == Seats
      ensures count == CountInGame(players, round.userState)
    {
      count := 0;
      var i := 0;
      while i < Seats
        invariant 0 <= i <= Seats
        invariant count == CountInGame(players[..i], round.userState[..i])
      {
        assert players[..i + 1][..i] == players[..i];
        assert round.userState[..i + 1][..i] == round.userState[..i];
        if players[i].Some? && round.userState[i] == InGame {
          count := count + 1;
        }
        i := i + 1;
      }
      assert players[..Seats] == players && round.userState[..Seats] == round.userState;
    }

    /**
     * `AddUser`, with the two facts it reads from storage passed in: whether
     * the user has registered in a private chat, and their balance.
     */
    method AddUser(userID: int, registered: bool, balance: Option<int>) returns (buy: int, err: Option<string>)
      requires Seated()
      modifies this`players
      ensures Seated() && (old(Valid()) ==> Valid())
      ensures err.Some? ==> buy == 0 && players == old(players)
      ensures !registered ==> err == Some(NotRegistered)
      ensures registered && FindUser(old(players), userID) >= 0 ==> err == Some(AlreadySeated)
      ensures registered && FindUser(old(players), userID) < 0 && FreeSeat(old(players)) < 0 ==>
        err == Some(NoFreeSeat)
      ensures registered && FindUser(old(players), userID) < 0 && FreeSeat(old(players)) >= 0 ==>
        if balance.None? || balance.value <= 0 then err == Some(TooPoor)
        else
          && err.None? && buy == Min(balance.value, maxChip)
          && players == old(players)[FreeSeat(old(players)) := Some(Player(userID, buy))]
    {
      if !registered {
        return 0, Some(NotRegistered);
      }
      var i := 0;
      while i < Seats
        invariant 0 <= i <= Seats
        invariant forall j :: 0 <= j < i ==> !(players[j].Some? && players[j].value.userId == userID)
      {
        if players[i].Some? && players[i].value.userId == userID {
          return 0, Some(AlreadySeated);
        }
        i := i + 1;
      }
      i := 0;
      while i < Seats
        invariant 0 <= i <= Seats
        invariant forall j :: 0 <= j < i ==> players[j].Some?
      {
        if players[i].None? {
          if balance.None? || balance.value <= 0 {
            return 0, Some(TooPoor);
          }
          buy := Min(balance.value, maxChip);
          if Valid() && round != null && round.stage < End {
            JoinOut(players, round.userState, i, Some(Player(userID, buy)));
          }
          players := players[i := Some(Player(userID, buy))];
          return buy, None;
        }
        i := i + 1;
      }
      return 0, Some(NoFreeSeat);
    }

    /** `RemoveUser`: empties the seat of `userID` and hands back its chips. */
    method RemoveUser(userID: int) returns (get: int, err: Option<string>)
      requires Seated()
      modifies this`players
      ensures Seated()
      ensures var s := FindUser(old(players), userID);
        && (s < 0 ==> get == 0 && err == Some(NotSeated) && players == old(players))
        && (s >= 0 ==> err.None? && get == old(players[s].value.chip) && players == old(players)[s := None])
    {
      var i := 0;
      while i < Seats
        invariant 0 <= i <= Seats
        invariant forall j :: 0 <= j < i ==> !(players[j].Some? && players[j].value.userId == userID)
      {
        if players[i].Some? && players[i].value.userId == userID {
          get := players[i].value.chip;
          players := players[i := None];
          return get, None;
        }
        i := i + 1;
      }
      return 0, Some(NotSeated);
    }

    /**
     * `StartRound`: refuses while a round is under way or with fewer than two
     * players; otherwise moves the button to the next occupied seat and opens
     * a round in which exactly the occupied seats take part. `perm` stands for
     * the shuffle of the new pack.
     */
    method StartRound(perm: seq<int>) returns (err: Option<string>)
      requires Valid() && IsPerm(perm)
      modifies this
      ensures Valid() && players == old(players) && maxChip == old(maxChip)
      ensures old(round) != null && old(round.stage) != End ==>
        err == Some(RoundGoingOn) && round == old(round) && dealer == old(dealer)
      ensures (old(round) == null || old(round.stage) == End) && CountOccupied(players) < 2 ==>
        err == Some(TooFewPlayers) && round == old(round) && dealer == old(dealer)
      ensures (old(round) == null || old(round.stage) == End) && CountOccupied(players) >= 2 ==>
        && err.None? && fresh(round) && fresh(round.cardDealer)
        && dealer == NextOccupied(players, old(dealer)) && round.dealer == dealer
        && round.pot == 0 && round.stage == Init
        && forall i :: 0 <= i < Seats ==>
             round.userState[i] == (if players[i].Some? then InGame else Out)
    {
      if round != null && round.stage != End {
        return Some(RoundGoingOn);
      }
      var count := CountUser();
      if count < 2 {
        return Some(TooFewPlayers);
      }
      CountOccupiedWitness(players);
      dealer := NextDealer(players, dealer);
      var r := new Round(dealer, perm);
      r.MarkSeats(players);
      round := r;
      CountInGameAll(players, round.userState);
      return None;
    }

    /** `MakeBet`: seat `index` puts `amount` in, or everything it has if that is less. */
    method MakeBet(index: int, amount: int)
      requires round != null && Seated() && round.Valid()
      requires 0 <= index < Seats && players[index].Some? && amount >= 0
      modifies this`players, round`stageBets, round`totalBets, round`pot
      ensures var paid := Paid(old(players[index]), amount);
        && 0 <= paid <= amount
        && players == AfterBet(old(players), index, amount)
        && round.stageBets == old(round.stageBets)[index := old(round.stageBets[index]) + paid]
        && round.totalBets == old(round.totalBets)[index := old(round.totalBets[index]) + paid]
        && round.pot == old(round.pot) + paid
      ensures Seated() && round.Valid()
      ensures CountInGame(players, round.userState) == old(CountInGame(players, round.userState))
      ensures Linked(players, round.userState) == old(Linked(players, round.userState))
    {
      var paid := Min(players[index].value.chip, amount);
      CountInGameSameSeats(players, AfterBet(players, index, amount), round.userState);
      players := players[index := Some(players[index].value.(chip := players[index].value.chip - paid))];
      round.Bet(index, paid);
    }

    /** One blind: the next seat in the hand after `from` bets `amount` through `MakeBet`. */
    method PostBlind(from: int, amount: int, ghost states: seq<int>) returns (seat: int)
      requires Valid() && round != null && round.stage == CompulsoryBets && 0 <= from < Seats && amount >= 0
      requires round.userState == states
      modifies this`players, round`stageBets, round`totalBets, round`pot
      ensures Valid() && round.userState == states
      ensures 0 <= seat < Seats && seat == NextSeat(states, from)
      ensures states[seat] == InGame && old(players[seat]).Some?
      ensures players == AfterBet(old(players), seat, amount)
      ensures var paid := Paid(old(players[seat]), amount);
        && round.stageBets[seat] == old(round.stageBets[seat]) + paid
        && round.totalBets[seat] == old(round.totalBets[seat]) + paid
        && round.pot == old(round.pot) + paid
      ensures forall i :: 0 <= i < Seats && i != seat ==>
        round.stageBets[i] == old(round.stageBets[i]) && round.totalBets[i] == old(round.totalBets[i])
    {
      CountInGameWitness(players, round.userState);
      seat := round.NextValidIndex(from);
      MakeBet(seat, amount);
    }

    /** The first half of `CompulsoryBets`: the stage bets are zeroed and the seat after the button posts the small blind. */
    method PostSmallBlind(ghost states: seq<int>) returns (seat: int)
      requires Valid() && round != null && round.stage == CompulsoryBets && round.userState == states
      modifies this`players, round`stageBets, round`totalBets, round`pot
      ensures Valid() && round.userState == states
      ensures 0 <= seat < Seats && seat == NextSeat(states, round.dealer)
      ensures states[seat] == InGame && old(players[seat]).Some?
      ensures players == AfterBet(old(players), seat, SmallBlind)
      ensures var paid := Paid(old(players[seat]), SmallBlind);
        && round.stageBets[seat] == paid
        && round.totalBets[seat] == old(round.totalBets[seat]) + paid
        && round.pot == old(round.pot) + paid
      ensures forall i :: 0 <= i < Seats && i != seat ==>
        round.stageBets[i] == 0 && round.totalBets[i] == old(round.totalBets[i])
    {
      round.ClearStageBets();
      seat := PostBlind(round.dealer, SmallBlind, states);
    }

    /**
     * The blinds of the `CompulsoryBets` stage: the stage bets are zeroed,
     * the seat after the button posts the small blind and the seat after it
     * the big blind.
     */
    method PostBlinds() returns (smallBlind: int, bigBlind: int)
      requires Valid() && round != null && round.stage == CompulsoryBets
      modifies this`players, round`stageBets, round`totalBets, round`pot
      ensures Valid() && round.userState == old(round.userState)
      ensures 0 <= smallBlind < Seats && 0 <= bigBlind < Seats && smallBlind != bigBlind
      ensures round.userState[smallBlind] == InGame && round.userState[bigBlind] == InGame
      ensures smallBlind == NextSeat(round.userState, round.dealer) && bigBlind == NextSeat(round.userState, smallBlind)
      ensures old(players[smallBlind]).Some? && old(players[bigBlind]).Some?
      ensures players == AfterBet(AfterBet(old(players), smallBlind, SmallBlind), bigBlind, BigBlind)
      ensures var small := Paid(old(players[smallBlind]), SmallBlind);
        && var big := Paid(old(players[bigBlind]), BigBlind);
        && round.stageBets[smallBlind] == small && round.stageBets[bigBlind] == big
        && round.totalBets[smallBlind] == old(round.totalBets[smallBlind]) + small
        && round.totalBets[bigBlind] == old(round.totalBets[bigBlind]) + big
        && round.pot == old(round.pot) + small + big
      ensures forall i :: 0 <= i < Seats && i != smallBlind && i != bigBlind ==>
        round.stageBets[i] == 0 && round.totalBets[i] == old(round.totalBets[i])
    {
      ghost var states := round.userState;
      CountInGameTwo(players, states);
      smallBlind := PostSmallBlind(states);
      ghost var o :| 0 <= o < Seats && o != smallBlind && states[o] == InGame;
      NextSeatOther(states, smallBlind, o);
      bigBlind := PostBlind(smallBlind, BigBlind, states);
    }

    /**
     * The payout at `End` in `ShowStatus`: every seat that took part is
     * credited its winnings unless it folded, and a seat left with no chips
     * is emptied through `RemoveUser`.
     */
    method CreditChips()
      requires Valid() && round != null && round.stage == End && Linked(players, round.userState)
      modifies this`players
      ensures Valid() && SettledFrom(old(players))
    {
      var i := 0;
      while i < Seats
        invariant 0 <= i <= Seats && Seated()
        invariant forall j :: 0 <= j < i ==> players[j] == Settled(old(players[j]), round.userState[j], round.earn[j])
        invariant forall j :: i <= j < Seats ==> players[j] == old(players[j])
      {
        if round.userState[i] != Out {
          if round.userState[i] != Folded {
            players := players[i := Some(players[i].value.(chip := players[i].value.chip + round.earn[i]))];
          }
          if players[i].value.chip <= 0 {
            SeatOfUser(players, i);
            var get, err := RemoveUser(players[i].value.userId);
          }
        }
        i := i + 1;
      }
    }

    /** The seats once the round is over: every seat of `before` settled with the round's states and earnings. */
    ghost predicate SettledFrom(before: seq<Option<Player>>)
      reads this, round
    {
      && round != null && |players| == Seats && |before| == Seats && |round.userState| == Seats && |round.earn| == Seats
      && forall i :: 0 <= i < Seats ==> players[i] == Settled(before[i], round.userState[i], round.earn[i])
    }

    /** The seats after play from the seats `before`: untouched while the round goes on, settled once it is over. */
    ghost predicate PlayedOn(before: seq<Option<Player>>)
      reads this, round
    {
      round != null && (if round.stage == End then SettledFrom(before) else players == before)
    }

    /**
     * The blinds posted from the seats `before`, the total bets `totalBets0` and
     * the pot `pot0`: the seat after the button puts in the small blind and the
     * seat after it the big blind, each no more than it holds, every other
     * stage bet is zero, and the preflop is open with the seat after the big
     * blind both to act and closing the betting.
     */
    ghost predicate Blinded(before: seq<Option<Player>>, totalBets0: seq<int>, pot0: int)
      reads this, round
    {
      && round != null && |before| == Seats && |totalBets0| == Seats && 0 <= round.dealer < Seats
      && |round.userState| == Seats && |round.stageBets| == Seats && |round.totalBets| == Seats
      && var small := NextSeat(round.userState, round.dealer);
      && 0 <= small < Seats && before[small].Some?
      && var big := NextSeat(round.userState, small);
      && 0 <= big < Seats && big != small && before[big].Some?
      && var paidSmall := Paid(before[small], SmallBlind);
      && var paidBig := Paid(before[big], BigBlind);
      && players == AfterBet(AfterBet(before, small, SmallBlind), big, BigBlind)
      && round.stageBets[small] == paidSmall && round.stageBets[big] == paidBig
      && round.totalBets[small] == totalBets0[small] + paidSmall && round.totalBets[big] == totalBets0[big] + paidBig
      && round.pot == pot0 + paidSmall + paidBig
      && (forall i :: 0 <= i < Seats && i != small && i != big ==>
            round.stageBets[i] == 0 && round.totalBets[i] == totalBets0[i])
      && round.stage == Preflop && round.actorIndex == NextSeat(round.userState, big)
      && round.lastRaiser == round.actorIndex
    }

    /**
     * The turn went from `actor0` as `Stops` says, on the seats `before` and
     * the last raiser `raiser`: the stage moved on from `stage0` exactly when
     * the betting stage closed, and otherwise the seat the walk ended at is
     * the actor and `raiser` is still the last raiser.
     */
    ghost predicate Turned(before: seq<Option<Player>>, actor0: int, raiser: int, stage0: int, ignoreTimes: int,
                           advance: bool, path: seq<int>)
      reads this, round
    {
      && round != null && |before| == Seats && |round.userState| == Seats && 0 <= actor0 < Seats
      && (advance <==> round.stage != stage0)
      && Stops(before, round.userState, actor0, raiser, ignoreTimes, advance, path)
      && (!advance ==> round.actorIndex == path[|path| - 1] && round.lastRaiser == raiser)
    }

    /** How far the round is from its end: what the stage transitions count down. */
    ghost function Remaining(): int
      reads this, round
    {
      if round == null then 0 else End - round.stage
    }

    /**
     * What `MoveOn` needs: the cards of the stage before are out, at `Preflop`
     * the turn is at a seat in the hand, and at `End` every seat in the round
     * is occupied.
     */
    ghost predicate Movable()
      reads Repr()
    {
      round != null ==>
        && round.Entering()
        && (round.stage == Preflop ==>
              |round.userState| == Seats && 0 <= round.actorIndex < Seats && round.userState[round.actorIndex] == InGame)
        && (round.stage == End ==> |players| == Seats && |round.userState| == Seats && Linked(players, round.userState))
    }

    /** Where `MoveOn` leaves a round: over, or in a betting stage with the turn at a seat in the hand. */
    ghost predicate Awaiting()
      reads Repr()
    {
      && round != null
      && (round.stage == End ||
          (round.Betting() && |round.userState| == Seats && 0 <= round.actorIndex < Seats
           && round.userState[round.actorIndex] == InGame))
    }

    /**
     * `MoveOn` without the messages: runs the stage the round is in and, where
     * the Go code does, goes on to the next, until the round waits for a bet or
     * is over.
     */
    method MoveOn() returns (err: Option<string>)
      requires Valid() && Movable()
      modifies this`players, round, if round == null then null else round.cardDealer
      decreases Remaining(), 3
      ensures Valid() && round == old(round)
      ensures old(round) == null ==> err == Some(RoundNotReady)
      ensures old(round) != null ==> err.None? && Awaiting() && round.stage >= old(round.stage)
      ensures old(round) != null ==> round.userState == old(round.userState)
      ensures old(round) != null && old(round.stage) >= Preflop ==>
        round.pot == old(round.pot) && round.totalBets == old(round.totalBets)
      ensures old(round) != null && old(round.stage) <= CompulsoryBets ==>
        Blinded(old(players), old(round.totalBets), old(round.pot))
      ensures old(round) != null && old(round.stage) == Preflop ==> players == old(players) && unchanged(round)
      ensures old(round) != null && old(round.stage) >= Preflop ==> PlayedOn(old(players))
      ensures old(round) != null && old(round.stage) == End ==> unchanged(round)
    {
      if round == null {
        return Some(RoundNotReady);
      }
      var stage := round.stage;
      if stage == Init {
        err := DealStage();
      } else if stage == CompulsoryBets {
        err := BlindsStage();
      } else if stage == Preflop {
        err := None;
      } else if stage <= River {
        ghost var advance, path;
        err, advance, path := StreetStage();
      } else if stage == Showdown {
        err := ShowdownStage();
      } else {
        CreditChips();
        err := None;
      }
    }

    /** The `Init` stage: the hole cards are dealt and the round moves on to the blinds. */
    method DealStage() returns (err: Option<string>)
      requires Valid() && round != null && round.stage == Init
      modifies this`players, round, round.cardDealer
      decreases Remaining(), 2
      ensures Valid() && round == old(round) && err.None? && Awaiting()
      ensures round.userState == old(round.userState)
      ensures Blinded(old(players), old(round.totalBets), old(round.pot))
    {
      round.DealHands();
      err := MoveOn();
    }

    /** The `CompulsoryBets` stage: the blinds, then the preflop opens with the seat after the big blind. */
    method BlindsStage() returns (err: Option<string>)
      requires Valid() && round != null && round.stage == CompulsoryBets && round.Entering()
      modifies this`players, round, round.cardDealer
      decreases Remaining(), 2
      ensures Valid() && round == old(round) && err.None? && Awaiting()
      ensures round.userState == old(round.userState)
      ensures Blinded(old(players), old(round.totalBets), old(round.pot))
    {
      var smallBlind, bigBlind := PostBlinds();
      err := PreflopStage(bigBlind);
    }

    /** The end of `CompulsoryBets`: the preflop opens with the seat after the big blind, and `MoveOn` runs it. */
    method PreflopStage(bigBlind: int) returns (err: Option<string>)
      requires Valid() && round != null && round.stage == CompulsoryBets && round.Entering()
      requires 0 <= bigBlind < Seats && round.userState[bigBlind] == InGame
      modifies this`players, round, round.cardDealer
      decreases Remaining(), 1
      ensures Valid() && round == old(round) && err.None? && Awaiting()
      ensures round.userState == old(round.userState)
      ensures round.pot == old(round.pot) && round.totalBets == old(round.totalBets)
      ensures players == old(players) && round.stageBets == old(round.stageBets)
      ensures round.stage == Preflop && round.actorIndex == NextSeat(round.userState, bigBlind)
      ensures round.lastRaiser == round.actorIndex
    {
      round.OpenPreflop(bigBlind);
      err := MoveOn();
    }

    /** The `Flop`, `Turn` and `River` stages: the street is dealt and `NextPlayer(1)` finds the first seat to act. */
    method StreetStage() returns (err: Option<string>, ghost advance: bool, ghost path: seq<int>)
      requires Valid() && round != null && Flop <= round.stage <= River && round.Entering()
      modifies this`players, round, round.cardDealer
      decreases Remaining(), 2
      ensures Valid() && round == old(round) && err.None? && Awaiting() && round.stage >= old(round.stage)
      ensures round.userState == old(round.userState)
      ensures round.pot == old(round.pot) && round.totalBets == old(round.totalBets)
      ensures PlayedOn(old(players))
      ensures Turned(old(players), round.dealer, NextSeat(round.userState, round.dealer), old(round.stage), 1, advance, path)
      ensures round.stage == old(round.stage) ==>
        && round.stageBets == Zeros() && round.lastRaiser == NextSeat(round.userState, round.dealer)
        && players[round.actorIndex].Some? && players[round.actorIndex].value.chip > 0
    {
      CountInGameWitness(players, round.userState);
      round.OpenStreet();
      err, advance, path := NextPlayer(1);
    }

    /** The `Showdown` stage: the pot is settled, the round ends and the chips are credited. */
    method ShowdownStage() returns (err: Option<string>)
      requires Valid() && round != null && round.stage == Showdown
      modifies this`players, round, round.cardDealer
      decreases Remaining(), 2
      ensures Valid() && round == old(round) && err.None? && Awaiting() && round.stage == End
      ensures round.userState == old(round.userState)
      ensures round.pot == old(round.pot) && round.totalBets == old(round.totalBets)
      ensures round.HandsKnown() && ShowdownPaid(round.userState, round.topCards, round.totalBets, round.pot, round.earn)
      ensures SettledFrom(old(players))
    {
      CountInGameWitness(players, round.userState);
      round.SettleShowdown();
      err := MoveOn();
    }

    /**
     * `NextPlayer`: the turn moves on over the seats of `path`; when the
     * rotation ends at the last raiser (`advance`) the stage is over, the next
     * one begins and `MoveOn` runs it, and otherwise the turn stops at the
     * first seat on the way that has chips to bet.
     */
    method NextPlayer(ignoreTimes: int) returns (err: Option<string>, ghost advance: bool, ghost path: seq<int>)
      requires Valid() && round != null && round.Betting()
      requires ignoreTimes >= 0 && WillStop(players, round.userState, round.lastRaiser)
      modifies this`players, round, round.cardDealer
      decreases Remaining(), 1
      ensures Valid() && round == old(round) && err.None? && Awaiting() && round.stage >= old(round.stage)
      ensures round.userState == old(round.userState)
      ensures round.pot == old(round.pot) && round.totalBets == old(round.totalBets)
      ensures round.stage == old(round.stage) ==>
        round.stageBets == old(round.stageBets) && round.lastRaiser == old(round.lastRaiser)
      ensures PlayedOn(old(players))
      ensures Turned(old(players), old(round.actorIndex), old(round.lastRaiser), old(round.stage), ignoreTimes, advance, path)
      ensures !advance ==> players[round.actorIndex].Some? && players[round.actorIndex].value.chip > 0
    {
      var stageOver;
      stageOver, path := RotateActor(ignoreTimes);
      advance := stageOver;
      if stageOver {
        round.NextStage();
        err := MoveOn();
      } else {
        err := None;
      }
    }

    /**
     * The loop of `NextPlayer` on the table: the turn leaves `actorIndex`
     * and stops as `Rotate` says.
     */
    method RotateActor(ignoreTimes: int) returns (advance: bool, ghost path: seq<int>)
      requires Valid() && round != null && round.stage < End
      requires ignoreTimes >= 0 && WillStop(players, round.userState, round.lastRaiser)
      modifies round`actorIndex, round`lastRaiser
      ensures Valid() && round.lastRaiser == old(round.lastRaiser)
      ensures 0 <= round.actorIndex < Seats && |path| >= 1 && path[|path| - 1] == round.actorIndex
      ensures Stops(players, round.userState, old(round.actorIndex), round.lastRaiser, ignoreTimes, advance, path)
    {
      CountInGameWitness(players, round.userState);
      var actor;
      actor, advance, path := Rotate(players, round.userState, round.actorIndex, round.lastRaiser, ignoreTimes);
      round.SetTurn(actor, round.lastRaiser);
    }

    /** A betting stage with the turn to play: what `Fold`, `Call`, `Check`, `Raise` and `AllIn` need. */
    ghost predicate Acting()
      reads Repr()
    {
      Valid() && round != null && round.Betting()
    }

    /**
     * `Fold`: the seat in the hand of `userID` folds. When one seat is left it
     * takes the pot and the round ends; otherwise the turn moves on. A user
     * with no seat in the hand changes nothing.
     */
    method Fold(userID: int) returns (err: Option<string>, ghost advance: bool, ghost path: seq<int>)
      requires Acting()
      requires var s := SeatOf(players, round.userState, userID);
        s >= 0 && CountInGame(players, round.userState[s := Folded]) != 1 ==>
          WillStop(players, round.userState[s := Folded], round.lastRaiser)
      modifies this`players, round, round.cardDealer
      ensures Valid() && round == old(round) && err.None?
      ensures var s := old(SeatOf(players, round.userState, userID));
        && (s < 0 ==> players == old(players) && unchanged(round))
        && (s >= 0 ==> Awaiting() && round.userState == old(round.userState)[s := Folded] && PlayedOn(old(players)))
        && (s >= 0 && old(CountInGame(players, round.userState[s := Folded])) != 1 ==>
              && round.pot == old(round.pot) && round.totalBets == old(round.totalBets)
              && Turned(old(players), old(round.actorIndex), old(round.lastRaiser), old(round.stage), 0, advance, path)
              && (round.stage == old(round.stage) ==> round.stageBets == old(round.stageBets)))
        && (s >= 0 && old(CountInGame(players, round.userState[s := Folded])) == 1 ==>
              round.stage == End && round.pot == old(round.pot)
              && forall i :: 0 <= i < Seats ==>
                   round.earn[i] == (if round.userState[i] == InGame && forall j :: 0 <= j < i ==> round.userState[j] != InGame
                                     then round.pot else 0))
    {
      advance, path := false, [];
      var max, index := GetMaxAndCurrentUserIndex(players, round.userState, round.stageBets, userID);
      if index >= 0 {
        err, advance, path := FoldSeat(index);
      } else {
        err := None;
      }
    }

    /** The body of `Fold` for the seat `index` in the hand. */
    method FoldSeat(index: int) returns (err: Option<string>, ghost advance: bool, ghost path: seq<int>)
      requires Acting() && 0 <= index < Seats && round.userState[index] == InGame
      requires CountInGame(players, round.userState[index := Folded]) != 1 ==>
        WillStop(players, round.userState[index := Folded], round.lastRaiser)
      modifies this`players, round, round.cardDealer
      ensures Valid() && round == old(round) && err.None? && Awaiting() && round.userState == old(round.userState)[index := Folded]
      ensures PlayedOn(old(players))
      ensures old(CountInGame(players, round.userState[index := Folded])) != 1 ==>
        && round.pot == old(round.pot) && round.totalBets == old(round.totalBets)
        && Turned(old(players), old(round.actorIndex), old(round.lastRaiser), old(round.stage), 0, advance, path)
        && (round.stage == old(round.stage) ==> round.stageBets == old(round.stageBets))
      ensures old(CountInGame(players, round.userState[index := Folded])) == 1 ==>
        round.stage == End && round.pot == old(round.pot)
        && forall i :: 0 <= i < Seats ==>
             round.earn[i] == (if round.userState[i] == InGame && forall j :: 0 <= j < i ==> round.userState[j] != InGame
                               then round.pot else 0)
    {
      CountInGameFold(players, round.userState, index, Folded);
      round.MarkFolded(index);
      var count := CountUserInGame();
      err, advance, path := AfterFold(count);
    }

    /** What `Fold` does once the seat has folded and `count` seats are left in the hand. */
    method AfterFold(count: int) returns (err: Option<string>, ghost advance: bool, ghost path: seq<int>)
      requires Seated() && round != null && round.Valid() && round.Betting() && Linked(players, round.userState)
      requires count == CountInGame(players, round.userState) >= 1
      requires count != 1 ==> WillStop(players, round.userState, round.lastRaiser)
      modifies this`players, round, round.cardDealer
      ensures Valid() && round == old(round) && err.None? && Awaiting() && round.userState == old(round.userState)
      ensures PlayedOn(old(players))
      ensures count != 1 ==>
        && round.pot == old(round.pot) && round.totalBets == old(round.totalBets)
        && Turned(old(players), old(round.actorIndex), old(round.lastRaiser), old(round.stage), 0, advance, path)
        && (round.stage == old(round.stage) ==> round.stageBets == old(round.stageBets))
      ensures count == 1 ==>
        round.stage == End && round.pot == old(round.pot)
        && forall i :: 0 <= i < Seats ==>
             round.earn[i] == (if round.userState[i] == InGame && forall j :: 0 <= j < i ==> round.userState[j] != InGame
                               then round.pot else 0)
    {
      advance, path := false, [];
      if count == 1 {
        err := FoldWin();
      } else {
        err, advance, path := NextPlayer(0);
      }
    }

    /** A fold that leaves one seat in the hand: `getResultForFold`, `Stage = End`, and `MoveOn` credits the chips. */
    method FoldWin() returns (err: Option<string>)
      requires Seated() && round != null && round.Valid() && round.stage < End
      requires Linked(players, round.userState)
      modifies this`players, round, round.cardDealer
      ensures Valid() && round == old(round) && err.None? && Awaiting() && round.stage == End
      ensures round.userState == old(round.userState) && round.pot == old(round.pot)
      ensures forall i :: 0 <= i < Seats ==>
        round.earn[i] == (if round.userState[i] == InGame && forall j :: 0 <= j < i ==> round.userState[j] != InGame
                          then round.pot else 0)
      ensures SettledFrom(old(players))
    {
      round.SettleFold();
      err := MoveOn();
    }

    /**
     * `Call`: the seat in the hand of `userID` brings its stage bet up to the
     * largest one, or puts in all it has if that is less, and the turn moves
     * on. A seat that has already matched the largest bet is refused.
     */
    method Call(userID: int) returns (err: Option<string>, ghost advance: bool, ghost path: seq<int>)
      requires Acting()
      requires var s := SeatOf(players, round.userState, userID);
        s >= 0 && MaxBet(round.stageBets) != round.stageBets[s] ==>
          var owed := MaxBet(round.stageBets) - round.stageBets[s];
          WillStop(AfterBet(players, s, owed), round.userState, round.lastRaiser)
      modifies this`players, round, round.cardDealer
      ensures Valid() && round == old(round)
      ensures var s := old(SeatOf(players, round.userState, userID));
        var owed := if s < 0 then 0 else old(MaxBet(round.stageBets)) - old(round.stageBets[s]);
        && (s < 0 ==> err.None? && players == old(players) && unchanged(round))
        && (s >= 0 && owed == 0 ==>
              err == Some(NothingToCall) && players == old(players) && unchanged(round))
        && (s >= 0 && owed != 0 ==>
              err.None? && Staked(old(players), old(round.userState), old(round.pot), old(round.totalBets), old(round.stageBets),
                                  old(round.actorIndex), old(round.stage), s, owed, old(round.lastRaiser), advance, path))
    {
      advance, path := false, [];
      var max, index := GetMaxAndCurrentUserIndex(players, round.userState, round.stageBets, userID);
      if index < 0 {
        err := None;
      } else if max == round.stageBets[index] {
        err := Some(NothingToCall);
      } else {
        var owed := max - round.stageBets[index];
        err, advance, path := BetSeat(index, owed, false);
      }
    }

    /**
     * `Check`: the seat in the hand of `userID`, having matched the largest
     * stage bet, passes the turn on; a seat still owing chips is refused.
     */
    method Check(userID: int) returns (err: Option<string>, ghost advance: bool, ghost path: seq<int>)
      requires Acting()
      requires var s := SeatOf(players, round.userState, userID);
        s >= 0 && MaxBet(round.stageBets) <= round.stageBets[s] ==> WillStop(players, round.userState, round.lastRaiser)
      modifies this`players, round, round.cardDealer
      ensures Valid() && round == old(round)
      ensures var s := old(SeatOf(players, round.userState, userID));
        && (s < 0 ==> err.None? && players == old(players) && unchanged(round))
        && (s >= 0 && old(MaxBet(round.stageBets)) > old(round.stageBets[s]) ==>
              err == Some(CannotCheck) && players == old(players) && unchanged(round))
        && (s >= 0 && old(MaxBet(round.stageBets)) <= old(round.stageBets[s]) ==>
              && err.None? && Awaiting() && round.userState == old(round.userState) && PlayedOn(old(players))
              && round.pot == old(round.pot) && round.totalBets == old(round.totalBets)
              && (round.stage == old(round.stage) ==>
                    round.stageBets == old(round.stageBets) && round.lastRaiser == old(round.lastRaiser))
              && Turned(old(players), old(round.actorIndex), old(round.lastRaiser), old(round.stage), 0, advance, path))
    {
      advance, path := false, [];
      var max, index := GetMaxAndCurrentUserIndex(players, round.userState, round.stageBets, userID);
      if index >= 0 {
        if max <= round.stageBets[index] {
          err, advance, path := NextPlayer(0);
        } else {
          err := Some(CannotCheck);
        }
      } else {
        err := None;
      }
    }

    /**
     * `Raise`: the seat in the hand of `userID` matches the largest stage bet
     * and adds `amount` on top, becoming the last raiser. A raise below
     * `MinRaise`, or one that needs every chip the seat has or more, is refused.
     */
    method Raise(userID: int, amount: int) returns (err: Option<string>, ghost advance: bool, ghost path: seq<int>)
      requires Acting()
      modifies this`players, round, round.cardDealer
      ensures Valid() && round == old(round)
      ensures var s := old(SeatOf(players, round.userState, userID));
        var delta := if s < 0 then 0 else RaiseCost(amount, old(MaxBet(round.stageBets)), old(round.stageBets[s]));
        && (s < 0 ==> err.None? && players == old(players) && unchanged(round))
        && (s >= 0 && amount < MinRaise ==>
              err == Some(RaiseTooSmall) && players == old(players) && unchanged(round))
        && (s >= 0 && amount >= MinRaise && old(players[s].value.chip) <= delta ==>
              err == Some(RaiseTooLarge) && players == old(players) && unchanged(round))
        && (s >= 0 && amount >= MinRaise && old(players[s].value.chip) > delta ==>
              && err.None?
              && Staked(old(players), old(round.userState), old(round.pot), old(round.totalBets), old(round.stageBets),
                        old(round.actorIndex), old(round.stage), s, delta, s, advance, path))
    {
      advance, path := false, [];
      var max, index := GetMaxAndCurrentUserIndex(players, round.userState, round.stageBets, userID);
      if index >= 0 {
        err, advance, path := RaiseSeat(index, amount, max);
      } else {
        err := None;
      }
    }

    /** The body of `Raise` for the seat `index` in the hand, with `max` the largest stage bet. */
    method RaiseSeat(index: int, amount: int, max: int) returns (err: Option<string>, ghost advance: bool, ghost path: seq<int>)
      requires Acting() && 0 <= index < Seats && round.userState[index] == InGame
      requires max == MaxBet(round.stageBets)
      modifies this`players, round, round.cardDealer
      ensures Valid() && round == old(round)
      ensures var delta := RaiseCost(amount, max, old(round.stageBets[index]));
        && (amount < MinRaise ==>
              err == Some(RaiseTooSmall) && players == old(players) && unchanged(round))
        && (amount >= MinRaise && old(players[index].value.chip) <= delta ==>
              err == Some(RaiseTooLarge) && players == old(players) && unchanged(round))
        && (amount >= MinRaise && old(players[index].value.chip) > delta ==>
              && err.None?
              && Staked(old(players), old(round.userState), old(round.pot), old(round.totalBets), old(round.stageBets),
                        old(round.actorIndex), old(round.stage), index, delta, index, advance, path))
    {
      advance, path := false, [];
      var delta := RaiseCost(amount, max, round.stageBets[index]);
      if amount < MinRaise {
        err := Some(RaiseTooSmall);
      } else {
        if players[index].value.chip <= delta {
          err := Some(RaiseTooLarge);
        } else {
          assert Paid(players[index], delta) == delta;
          err, advance, path := BetSeat(index, delta, true);
        }
      }
    }

    /**
     * `AllIn`: the seat in the hand of `userID` puts in every chip it has; it
     * becomes the last raiser when its stage bet then tops the largest one.
     */
    method AllIn(userID: int) returns (err: Option<string>, ghost advance: bool, ghost path: seq<int>)
      requires Acting()
      requires var s := SeatOf(players, round.userState, userID);
        s >= 0 && players[s].value.chip + round.stageBets[s] <= MaxBet(round.stageBets) ==>
          WillStop(AfterBet(players, s, players[s].value.chip), round.userState, round.lastRaiser)
      modifies this`players, round, round.cardDealer
      ensures Valid() && round == old(round) && err.None?
      ensures var s := old(SeatOf(players, round.userState, userID));
        && (s < 0 ==> players == old(players) && unchanged(round))
        && (s >= 0 ==>
              && Staked(old(players), old(round.userState), old(round.pot), old(round.totalBets), old(round.stageBets),
                        old(round.actorIndex), old(round.stage), s, old(players[s].value.chip),
                        if old(players[s].value.chip + round.stageBets[s] > MaxBet(round.stageBets)) then s
                        else old(round.lastRaiser),
                        advance, path)
              && Paid(old(players[s]), old(players[s].value.chip)) == old(players[s].value.chip))
    {
      advance, path := false, [];
      var max, index := GetMaxAndCurrentUserIndex(players, round.userState, round.stageBets, userID);
      if index >= 0 {
        err, advance, path := AllInSeat(index, max);
      } else {
        err := None;
      }
    }

    /** The body of `AllIn` for the seat `index` in the hand, with `max` the largest stage bet. */
    method AllInSeat(index: int, max: int) returns (err: Option<string>, ghost advance: bool, ghost path: seq<int>)
      requires Acting() && 0 <= index < Seats && round.userState[index] == InGame
      requires max == MaxBet(round.stageBets)
      requires players[index].value.chip + round.stageBets[index] <= max ==>
        WillStop(AfterBet(players, index, players[index].value.chip), round.userState, round.lastRaiser)
      modifies this`players, round, round.cardDealer
      ensures Valid() && round == old(round) && err.None?
      ensures Staked(old(players), old(round.userState), old(round.pot), old(round.totalBets), old(round.stageBets),
                     old(round.actorIndex), old(round.stage), index, old(players[index].value.chip),
                     if old(players[index].value.chip + round.stageBets[index]) > max then index else old(round.lastRaiser),
                     advance, path)
      ensures Paid(old(players[index]), old(players[index].value.chip)) == old(players[index].value.chip)
    {
      var all := players[index].value.chip + round.stageBets[index];
      var chip := players[index].value.chip;
      assert Paid(players[index], chip) == chip;
      err, advance, path := BetSeat(index, chip, all > max);
    }

    /**
     * After seat `index` has paid `paid` into a round that had the states
     * `states0`, the pot `pot0` and the total bets `totalBets0`: the seats in
     * the hand are as before, and the pot and the total bet of that seat have
     * grown by `paid`, the other total bets staying as they were.
     */
    ghost predicate Wagered(states0: seq<int>, pot0: int, totalBets0: seq<int>, index: int, paid: int)
      requires 0 <= index < |totalBets0|
      reads this, round
    {
      && round != null
      && round.userState == states0
      && round.pot == pot0 + paid
      && round.totalBets == totalBets0[index := totalBets0[index] + paid]
    }

    /**
     * While the betting stage is still `stage0`: seat `index`'s stage bet has
     * grown by `paid` from `bets0`, every other stage bet is as in `bets0`,
     * and `raiser` is the last raiser.
     */
    ghost predicate BetStaged(stage0: int, bets0: seq<int>, index: int, paid: int, raiser: int)
      requires 0 <= index < |bets0|
      reads this, round
    {
      && round != null
      && (round.stage == stage0 ==> round.stageBets == bets0[index := bets0[index] + paid] && round.lastRaiser == raiser)
    }

    /**
     * What a bet leaves behind. From the seats `before`, the states `states0`,
     * the pot `pot0`, the total bets `totalBets0`, the stage bets `bets0`, the
     * actor `actor0` and the stage `stage0`, seat `index` has paid what it
     * could of `amount` (`Paid`), `raiser` is the last raiser, and the turn
     * has moved on as `Turned` says: the round waits for the next bet or is
     * over, and the seats are as the bet left them (settled if it is over).
     */
    ghost predicate Staked(before: seq<Option<Player>>, states0: seq<int>, pot0: int, totalBets0: seq<int>, bets0: seq<int>,
                           actor0: int, stage0: int, index: int, amount: int, raiser: int, advance: bool, path: seq<int>)
      reads Repr()
    {
      && |before| == Seats && 0 <= index < Seats && before[index].Some?
      && |totalBets0| == Seats && |bets0| == Seats
      && Awaiting()
      && Wagered(states0, pot0, totalBets0, index, Paid(before[index], amount))
      && PlayedOn(AfterBet(before, index, amount))
      && BetStaged(stage0, bets0, index, Paid(before[index], amount), raiser)
      && Turned(AfterBet(before, index, amount), actor0, raiser, stage0, 0, advance, path)
    }

    /**
     * The end of `Call`, `Raise` and `AllIn`: seat `index` bets `amount`
     * through `MakeBet`, becomes the last raiser when `raises` holds, and
     * `NextPlayer(0)` moves the turn on.
     */
    method BetSeat(index: int, amount: int, raises: bool) returns (err: Option<string>, ghost advance: bool, ghost path: seq<int>)
      requires Acting() && 0 <= index < Seats && round.userState[index] == InGame && amount >= 0
      requires !raises ==> WillStop(AfterBet(players, index, amount), round.userState, round.lastRaiser)
      modifies this`players, round, round.cardDealer
      ensures Valid() && round == old(round) && err.None?
      ensures Staked(old(players), old(round.userState), old(round.pot), old(round.totalBets), old(round.stageBets),
                     old(round.actorIndex), old(round.stage), index, amount,
                     if raises then index else old(round.lastRaiser), advance, path)
    {
      MakeBet(index, amount);
      if raises {
        round.SetTurn(round.actorIndex, index);
      }
      err, advance, path := NextPlayer(0);
    }
  }
}
