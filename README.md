# Texas hold'em table engine in Dafny

This project models the poker engine of a chat-bot Texas hold'em table. A
table has ten seats. Players buy in with chips and one round ("deal") at a
time is played. The round has these parts:

- a shuffled pack;
- two hole cards per seat;
- the blinds;
- four betting stages (preflop, flop, turn and river), with the turn going
  clockwise from seat to seat;
- a showdown or a fold-out win.

At the end the pot is paid out and chips are credited back to the seats.

The model has seven modules, one file each:

| file | module | what it holds |
|---|---|---|
| `cards.dfy` | `Cards` | cards, the card order `CardSet.Less`, and sorting (`sort.Sort` on a card set) |
| `dealer.dfy` | `Dealer` | the pack: `NewTexasDealer` and the swap-remove `Deal` |
| `hands.dfy` | `Hands` | the hand evaluator: `GetRank`, the per-category tie-break extractors, `LessThan*` and `LessThanCardSet` |
| `topcards.dfy` | `TopCards` | `getTopCards`, the best five-card hand out of five to seven cards |
| `table.dfy` | `Table` | constants, seat arithmetic (the clockwise scans), sums and counts over the ten seats, and `min` |
| `settle.dfy` | `Settlement` | `PlayerHands` with its order, the winner count and the payout loop of `getResultForShowdown` |
| `texas.dfy` | `Texas` | the classes `Round` and `Texas`, stage transitions (`MoveOn`), turn rotation (`NextPlayer`), the betting actions and settlement |
| `wrappers.dfy` | `Wrappers` | `Option` |

Key modelling choices:

- **Mutable state.**
  - The Go structs the engine updates in place are classes. `Texas` holds the seats, dealer button, buy-in cap and current round. `Round` holds the pot, stage, the per-seat arrays, the actor and the last raiser.
  - The Go `[10]` arrays are `seq` fields of length 10 that the methods reassign.
  - Seats are `seq<Option<Player>>`, with a nil pointer as `None`.
  - The pack is a `seq` field of `TexasDealer`, and `Deal` swap-removes from it as the Go slice code does.
- **Pure code.**
  - The evaluator (`GetRank`, the `get*` extractors, the fixed-size comparisons) is made of functions.
  - Loops in the Go code stay loops in methods. These are `LessThanHighCard`, `LessThanOnePair`, the five nested loops of `getTopCards`, `NextValidIndex`, `getMaxAndCurrentUserIndex`, the counting loops, the dealer search, the `NextPlayer` rotation and the two loops of `getResultForShowdown`. Each is proved against a specification function.
- **Hand order.**
  - A hand's sort key (`Hands.Key`) is its category followed by that category's tie-break ranks. `HandLess` is the lexicographic order on keys.
  - `LessThanCardSet` is proved equal to `HandLess`, so it is a strict weak order. That is what `sort.Sort` at texas.go:487 needs.
  - `GetRank` is proved equal to a reference classification written independently, by rank multiplicities.
- **Money.**
  - During a round, chips leave a seat only through `MakeBet`, and that same amount goes into the seat's bets and the pot.
  - At the end of a round `CreditChips` (the settlement loop of `ShowStatus`) credits each seat its earnings. `AddUser` puts a buy-in on a seat and `RemoveUser` takes a seat's chips away.
  - `Round.Valid` includes `pot == Sum(totalBets)` and non-negative bets. Every method keeps it.
  - Every seat's chips after an action are stated. Until the round ends they are the old seats after the bet (`AfterBet`). At the end they are the seats after settlement (`Settled`).
- **Randomness and I/O.**
  - Randomness is a caller-supplied permutation (`rand.Perm`) and an arbitrary choice of deal index (`rand.Intn`).
  - Chat and key-value store lookups become parameters, or are assumed to succeed.

In these places the code departs from textbook hold'em, and the model follows the code:

- On the flop, turn and river, the code sets the last raiser to the first seat after the dealer that is in the hand. It sets the actor to the dealer and then runs `NextPlayer(1)`. It does not set both to the same seat.
- The showdown payout does not always pay out the whole pot. The model proves the bounds the code keeps, not conservation.
- The rotation of `NextPlayer` does not always terminate (see `Texas.RotationHangs`).

## Model

| member | source | states |
|---|---|---|
| Cards.CardLess | util.go:69-74 | card order compares ranks first, so a card that precedes another never has the higher rank |
| Cards.CardLessByCode | util.go:69-74 | on valid cards, one card precedes another exactly when its code 4*rank + suit is smaller: ranks first, suits to break ties |
| Cards.CardLessStrictTotal | util.go:69-74 | the card order (rank, then suit) is irreflexive, asymmetric, transitive and total on distinct cards; cards that neither precede the other are the same card |
| Cards.SortedIsPairwise | util.go:69-74 | in a sequence sorted by neighbours, every earlier card precedes every later card |
| Cards.Insert | util.go:340 | inserting a card into a sorted sequence keeps it sorted and adds exactly that card to the multiset |
| Cards.SortCards | util.go:340 | the result of `sort.Sort` is sorted by the card order and is a permutation of the input |
| Cards.SortedFirstIsLeast | util.go:340 | no card of a sorted sequence precedes its first card |
| Cards.SortedUnique | util.go:340 | two sorted sequences holding the same cards are equal |
| Cards.SortCardsCanonical | util.go:340 | sorting depends only on which cards are given, so reordered input gives the same sorted hand (and the same `GetRank`) |
| Cards.SortedSelect | util.go:344-351 | cards taken at increasing positions of a sorted sequence are sorted, so every five-card pick is a valid evaluator input |
| Dealer.PackCard | texas.go:115-120 | the card built at pack position n is a valid card with position suit*13 + rank - 2 |
| Dealer.PackCardBijective | texas.go:115-120 | pack positions and valid cards correspond one to one |
| Dealer.Removed | texas.go:135-137 | after the swap-remove the pack is one card shorter, the old multiset is the new one plus the dealt card, no card is new, and in a pack without duplicates the dealt card is gone |
| Dealer.RemovedParts | texas.go:135-137 | the multiset and membership facts of `Removed` |
| Dealer.RemovedDistinct | texas.go:135-137 | the swap-remove of a duplicate-free pack has no duplicates and no longer holds the dealt card |
| Dealer.TexasDealer.constructor | texas.go:110-128 | the pack has 52 cards, slot i holds the built card perm[i], no card repeats, and it holds exactly the valid cards |
| Dealer.TexasDealer.Deal | texas.go:131-139 | returns the card at the chosen slot and leaves the pack as `Removed` says |
| Hands.GetRank | util.go:76-137 | the category of a sorted hand is never five of a kind |
| Hands.Count5 | util.go:76-137 | the number of cards of a rank in a five-card hand, position by position |
| Hands.HandRanks | util.go:77-79 | a hand in card order has non-decreasing ranks |
| Hands.RunIff | util.go:84-87 | the straight test holds exactly when the ranks are five distinct consecutive values or the wheel 2-3-4-5-A |
| Hands.QuadsIff | util.go:103-106 | the four-of-a-kind test holds exactly when some rank occurs at least four times |
| Hands.FullHouseIff | util.go:108-111 | without four of a kind, the full-house test holds exactly when some rank occurs three times and another twice |
| Hands.TripsIff | util.go:121-125 | without four of a kind, the three-of-a-kind test holds exactly when some rank occurs three times |
| Hands.TwoPairsIff | util.go:127-130 | without three or four of a kind, the two-pair test holds exactly when two different ranks occur twice |
| Hands.PairIff | util.go:132-135 | without three or four of a kind, the one-pair test holds exactly when some rank occurs twice |
| Hands.GetRankMatchesReference | util.go:76-137 | `GetRank` equals the category defined by rank multiplicities, same suit and run of ranks, so the category depends on what the hand holds, not on card positions |
| Hands.PairsAndRest | util.go:178-199 | the hand must have the shape the code reads without a `panic` (the top two cards paired and one of the two lower pairings, or else the middle pair at positions 2-3). On a two-pair hand, the high pair rank is then above the low pair rank, both occur twice, and the kicker once |
| Hands.ThreeAndHighLow | util.go:213-231 | on a three-of-a-kind hand: the triple rank occurs three times, the two kickers once each, high kicker above low kicker |
| Hands.ThreeAndPair | util.go:245-251 | on a full house: the first rank returned occurs three times, the second twice |
| Hands.FourAndRest | util.go:262-268 | on four of a kind: the first rank occurs at least four times, and when exactly four, the second rank is the kicker, occurring once |
| Hands.OnePairParts | util.go:156-163 | in a one-pair hand the recorded pair rank occurs twice, and the three unpaired cards have distinct ranks in increasing order, each occurring once |
| Hands.LexLessCons | util.go:143-148 | the lexicographic order compares first elements, then the rest |
| Hands.LexLessIrreflexive | util.go:143-148 | no key precedes itself (the all-equal loop returns false) |
| Hands.LexLessTransitive | util.go:279-317 | the key order is transitive |
| Hands.LexLessTotal | util.go:279-317 | two different keys are ordered one way or the other |
| Hands.LexLessFirstDiff | util.go:143-148 | for keys of equal length, the order is decided by the first position where they differ |
| Hands.LexNotLessTransitive | util.go:279-317 | "not less than" on keys is transitive |
| Hands.LessThanHighCard | util.go:139-149 | the comparison reading ranks from the last position down is the key order on reversed ranks |
| Hands.LessThanOnePair | util.go:151-176 | compares pair rank, then the unpaired ranks from high to low |
| Hands.LessThanTwoPair | util.go:201-211 | on hands of the shape `getPairsAndRest` reads without a `panic`, compares high pair, low pair, then kicker |
| Hands.LessThanThreeOfAKind | util.go:233-243 | compares triple, high kicker, then low kicker |
| Hands.LessThanFullHouse | util.go:253-260 | compares triple, then pair |
| Hands.LessThanFourOfAKind | util.go:270-277 | compares quad, then kicker |
| Hands.StraightTop | util.go:293-306 | on a straight, the top card's rank is between 5 and 14, and every card's rank lies in the five ranks ending there, counting the ace as 1 in the wheel 2-3-4-5-A |
| Hands.LessThanCardSet | util.go:279-317 | `a` is less than `b` exactly when the key of `a` (category, then its tie-break ranks; a straight's top is 5 for the wheel; royal flushes tie) precedes that of `b` |
| Hands.HandLessIrreflexive | util.go:279-317 | no hand is less than itself |
| Hands.HandLessAsymmetric | util.go:279-317 | `LessThanCardSet(a, b)` excludes `LessThanCardSet(b, a)` |
| Hands.HandLessTransitive | util.go:279-317 | the hand order is transitive |
| Hands.HandLessTie | util.go:279-317 | hands where neither is less than the other have the same category and the same tie-break ranks |
| Hands.HandNotLessTransitive | util.go:279-317 | incomparability is transitive; with the above, the order is a strict weak order as `sort.Sort` needs |
| Hands.HandLessByCategory | util.go:280-283 | a hand of a lower category is less than, and not greater than, a hand of a higher one |
| TopCards.Select | util.go:349-351 | the five cards at a pick come from the cards, and form an evaluator hand when the cards are sorted |
| TopCards.Present | util.go:321-326 | gathering the dealt community cards never yields more than five |
| TopCards.PresentMembers | util.go:321-326 | a card is among the gathered cards exactly when it was dealt to a community slot |
| TopCards.Keep | util.go:352-354 | a pick that does not beat the kept hand leaves every visited pick unbeaten |
| TopCards.Replace | util.go:352-354 | a pick that beats the kept hand (or the first pick) becomes the kept hand, and every visited pick still does not beat it |
| TopCards.NextL | util.go:347-348 | moving on from the innermost loop keeps the visited picks covered |
| TopCards.NextK | util.go:346-347 | the same for the third loop |
| TopCards.NextJ | util.go:345-346 | the same for the second loop |
| TopCards.NextI | util.go:344-345 | the same for the outer loop |
| TopCards.Finish | util.go:344-361 | after all loops the kept hand is one of the picks and no pick beats it; with five cards it is all of them |
| TopCards.Consider | util.go:349-354 | one innermost step keeps either the old hand or the new pick, and covers one more pick |
| TopCards.ScanFifth | util.go:348-355 | the innermost loop covers every pick with the first four positions fixed |
| TopCards.ScanLast | util.go:347-356 | the fourth loop covers every pick with the first three positions fixed |
| TopCards.ScanRest | util.go:345-358 | the inner loops cover every pick with the first position fixed |
| TopCards.BestHand | util.go:341-361 | for sorted cards, the result is a hand drawn from them that no five-card pick beats, and it is all the cards when there are five |
| TopCards.GetTopCards | util.go:319-362 | with at least three community cards and both hole cards, the result is a best five-card hand of the sorted gathered cards |
| Table.Min | util.go:52-57 | the minimum is at most both arguments and equals one of them |
| Table.SumUpdate | texas.go:760-766 | changing one seat's amount changes the sum by the difference |
| Table.SumZero | texas.go:246-251 | a fresh round's all-zero arrays sum to zero |
| Table.SumNonNeg | texas.go:760-766 | non-negative amounts have a non-negative sum |
| Table.Zeros | texas.go:246-251 | a fresh round's per-seat array has ten zeros |
| Table.CountInGameSameSeats | texas.go:216-224 | changing chips but not who is seated changes neither the in-hand count nor the seat/state link |
| Table.CountOccupiedWitness | texas.go:205-213 | a positive seat count means some seat is occupied |
| Table.CountInGameWitness | texas.go:216-224 | a positive in-hand count means some occupied seat is in the hand |
| Table.CountInGameAll | texas.go:253-259 | when a seat is in the hand exactly when occupied, the two counts agree |
| Table.CountInGameFold | texas.go:520-521 | folding a seat in the hand lowers the in-hand count by one |
| Table.CountInGameOne | texas.go:449-457 | with one seat in the hand, no later seat is in the hand (the first one found is the only one) |
| Table.CountInGameAtLeast | texas.go:216-224 | a seat in the hand makes the count at least one |
| Table.CountInGameTwo | texas.go:216-224 | a count of at least two gives two different seats in the hand |
| Table.Dist | texas.go:751-758 | the clockwise distance from a to b is between 1 and 10 and lands on b |
| Table.DistOf | texas.go:751-758 | the seat k steps after a is at distance k |
| Table.DistValue | texas.go:751-758 | the clockwise distance in closed form |
| Table.DistShrinks | texas.go:417-426 | a seat no farther than the target is closer to it |
| Table.ClockwiseFirst | texas.go:751-758 | the scan from step k returns -1 exactly when no seat is in the hand, and otherwise the first seat in the hand clockwise |
| Table.NextSeatFirst | texas.go:751-758 | `NextValidIndex` returns the first seat in the hand strictly clockwise (itself after a full lap), and finds one whenever any seat is in the hand |
| Table.NextSeatCloser | texas.go:417-426 | each rotation step gets strictly closer to a target seat in the hand |
| Table.NextSeatOther | texas.go:751-758 | with another seat in the hand, the next seat is not the starting one |
| Table.ClockwiseOccupiedFirst | texas.go:236-244 | the dealer scan from step k returns -1 exactly when no seat is occupied, and otherwise the first occupied seat clockwise |
| Table.NextOccupiedFirst | texas.go:236-244 | the next dealer is the first occupied seat strictly clockwise from the old one |
| Table.FindUser | texas.go:146-150 | the first seat held by the user, or -1 when none is |
| Table.SeatOfUser | texas.go:188-189 | when users are seated once, looking a seated user up finds their own seat |
| Table.FreeSeat | texas.go:151-153 | the first empty seat, or -1 when every seat is taken |
| Table.SeatOf | texas.go:435-447 | the last seat in the hand held by the user, or -1 |
| Table.MaxBet | texas.go:435-447 | the largest stage bet, at least 0, and either 0 or one of the bets |
| Settlement.PlayerHandsLess | texas.go:467-474 | the result is true exactly when the first hand is weaker than the second, or the two hands tie and the first seat has bet more |
| Settlement.PlayerLessAsymmetric | texas.go:467-474 | the seat order is asymmetric |
| Settlement.PlayerNotLessTransitive | texas.go:467-474 | incomparability of seats is transitive, so `sort.Sort` gets a strict weak order |
| Settlement.InsertHand | texas.go:487 | inserting a seat's hand into a sorted list keeps it sorted and adds that one hand |
| Settlement.InsertFront | texas.go:487 | a hand not above the first goes in front |
| Settlement.InsertBehind | texas.go:487 | a hand above the first goes behind it, keeping order and contents |
| Settlement.ConsSorted | texas.go:487 | a hand none of the list is below goes in front |
| Settlement.BehindMembers | texas.go:487 | every hand placed behind the first is not below it |
| Settlement.SortHands | texas.go:487 | `sort.Sort(allHands)` yields a sorted permutation of the hands |
| Settlement.SortedBelowLoses | texas.go:490-496 | in the sorted list, every hand before one that loses to the top also loses |
| Settlement.BelowTop | texas.go:489 | a hand beaten by any listed hand is beaten by the last (top) hand |
| Settlement.CountTies | texas.go:490-496 | the scan down from the top stops at the first hand that loses to the top hand; every hand above it ties the top, and the count is the number of those hands plus the top |
| Settlement.TiesStep | texas.go:490-496 | a hand that does not lose to the top extends the run of tied hands by one |
| Settlement.CountWinners | texas.go:490-496 | the winner count is between 1 and n, and a listed hand ties the top hand exactly when it is among the last `winnerCount` |
| Settlement.WinnersBlock | texas.go:490-496 | the hands after the first loser from the top are exactly the hands not beaten by the top |
| Settlement.CapBound | texas.go:509 | a seat's bet is at most its bet times the number of hands |
| Settlement.WinnerShare | texas.go:509-512 | a winner's share is between 0 and the rest and at most n times its bet, and that share for each remaining winner fits in the rest |
| Settlement.ShareBound | texas.go:509 | an equal share of the rest, taken by each remaining winner, fits in the rest |
| Settlement.PaidStart | texas.go:497 | before the payout loop nothing is paid and the whole pot is left |
| Settlement.PayStep | texas.go:498-513 | paying one seat within its caps keeps the running payout bounds |
| Settlement.Payout | texas.go:497-514 | payouts are non-negative and sum to at most the pot minus what is left; the rest stays at least 0; no seat gets more than n times its bet; a seat beaten by the top hand gets at most its bet; a seat out of the hand gets 0. With the seats of the list distinct, the seat of the top hand, paid first with the whole pot left, gets exactly min(its bet times n, pot / winnerCount) |
| Settlement.Wins | texas.go:490-496 | the number of hands that do not lose to the top hand, at most the number of hands |
| Settlement.WinsAppend | texas.go:490-496 | the winners of two lists put together are the winners of each |
| Settlement.WinsDrop | texas.go:490-496 | taking one hand out of the list takes one winner away exactly when that hand wins |
| Settlement.WinsPerm | texas.go:487-496 | the number of winners does not depend on the order `sort.Sort` leaves the hands in |
| Settlement.WinsBlock | texas.go:490-496 | when the winners are the last `winnerCount` hands of the sorted list, there are `winnerCount` of them |
| Texas.Shown | texas.go:343-401 | the number of community cards out at a stage is between 0 and 5: none exactly up to the preflop, all five exactly from the river on |
| Texas.PresentPrefix | util.go:321-326 | with the first k slots dealt, gathering n slots gives min(n, k) cards |
| Texas.PresentCount | util.go:321-326 | with the first k slots dealt, gathering gives k cards |
| Texas.BestBelowSet | texas.go:272-275 | recording a seat's best hand extends the seats done by one |
| Texas.BestBelowSkip | texas.go:264-266 | a seat out of the hand is skipped |
| Texas.BestHands | texas.go:263-287 | every seat in the hand gets a best hand of its cards; other seats are left as they were |
| Texas.SortedContenders | texas.go:477-487 | the sorted showdown list holds exactly the seats in the hand, each with its best hand |
| Texas.SortedDistinct | texas.go:477-487 | the sorted showdown list holds each seat once |
| Texas.PermRising | texas.go:477-487 | `sort.Sort` rearranging a list whose seats rise leaves no seat twice |
| Texas.UnbeatenSeats | texas.go:490-496 | the number of seats in the hand whose hand does not lose to a given one, at most the number of seats |
| Texas.ContendersWins | texas.go:477-496 | counted over the showdown list or over the seats, the winners are the same number |
| Texas.ContendersRising | texas.go:478-486 | the seats rise along the showdown list, which is built in seat order |
| Texas.RisingOnce | texas.go:478-486 | a list whose seats rise holds each entry at most once |
| Texas.TwiceIn | texas.go:478-487 | a value at two places of a sequence occurs in it at least twice |
| Texas.TopUnbeaten | texas.go:487-489 | no seat in the hand beats the top hand of the sorted list |
| Texas.TopShare | texas.go:487-496 | the top seat's hand is unbeaten, and the `winnerCount` of the Go loop is the number of seats in the hand whose hands do not lose to it |
| Texas.BeatenByTop | texas.go:488-489 | a seat beaten by any seat in the hand is beaten by the top hand |
| Texas.GetResultForShowdown | texas.go:476-515 | payouts are non-negative and sum to at most the pot; no seat gets more than n times its bet; a seat out of the hand gets 0; a seat beaten by another seat gets at most its bet. Some seat in the hand that no seat beats (the one paid first) earns exactly min(its bet times n, pot / W), where W is the number of seats in the hand whose hands tie with its own (`ShowdownPaid`). So a sole best hand whose bet times n covers the pot takes the whole pot |
| Texas.AfterBetSeat | texas.go:760-766 | after a bet the seat holds its chips less the paid amount, and every other seat is unchanged |
| Texas.RotationHangs | texas.go:417-426 | without a last raiser in the hand or a seat with chips, every walk of the rotation ends at a seat it cannot stop on and goes on by one more seat: the loop never ends |
| Texas.WalkedExtend | texas.go:417-426 | a walk goes on by one seat from a passed-over seat |
| Texas.WalkedSteps | texas.go:417-426 | a walk steps, each time, from a seat in the hand with no chips to the next seat in the hand |
| Texas.Rotate | texas.go:415-426 | the rotation ends at a seat in the hand (`Stops`). Either it ends at the last raiser, having passed it exactly `ignoreTimes` times before, and the stage closes. Or it ends at a seat with chips, having met the last raiser at most `ignoreTimes` times on the whole walk, and that seat bets next. Every seat passed over is in the hand with no chips |
| Texas.StopsCount | texas.go:417-429 | the stage closes exactly when the walk has met the last raiser more than `ignoreTimes` times; before its last seat it never has |
| Texas.PastStop | texas.go:417-426 | a walk that goes on past a seat where the loop stops has already met the last raiser more than `ignoreTimes` times before its last seat |
| Texas.StopsUnique | texas.go:412-429 | the loop has exactly one outcome: any two walks that satisfy `Stops` from the same state are the same walk with the same verdict on whether the stage closes |
| Texas.WalksAgree | texas.go:415-426 | two walks from the same first seat agree on their common length |
| Texas.RaiseCost | texas.go:562 | what a raise costs a seat: afterwards its stage bet is the largest bet plus the raise |
| Texas.NextDealer | texas.go:236-244 | the new dealer is the first occupied seat strictly clockwise from the old one |
| Texas.Settled | texas.go:639-660 | a seat out of the round is left as it is. A folded seat with chips keeps them. A seat still in the hand gets its earnings added. A seat left with 0 chips or fewer leaves the table. The user never changes |
| Texas.Contenders | texas.go:479-486 | one entry per seat in the hand, with that seat's best hand and total bet |
| Texas.GetMaxAndCurrentUserIndex | texas.go:435-447 | returns the largest stage bet and the last seat in the hand held by the user, or -1 |
| Texas.Round.constructor | texas.go:245-251 | a fresh round has a zero pot, stage `Init`, a full shuffled pack, no cards out and every per-seat array zero |
| Texas.Round.NextValidIndex | texas.go:751-758 | returns the first seat in the hand strictly clockwise from `index` |
| Texas.Round.MarkSeats | texas.go:253-259 | each seat is in the hand exactly when it is occupied, otherwise out |
| Texas.Round.ClearStageBets | texas.go:330-332 | every stage bet becomes 0 |
| Texas.Round.DrawCard | texas.go:131-139 | the card drawn was in the pack, and the pack loses exactly that card; a pack without repeats stays without repeats and no longer holds the card |
| Texas.Round.DealSeat | texas.go:312-320 | a seat's earn is reset, it gets two different cards from the pack that are no longer in it, four cards leave the pack (two burnt), and no card is in two places (`CardsApart`) |
| Texas.Round.DealHoleCards | texas.go:297-325 | every seat in the hand gets two cards from the pack; other seats are untouched; no card is in two places, so the hole cards of all seats differ and none is left in the pack (`CardsApart`) |
| Texas.Round.DealHands | texas.go:295-327 | the `Init` stage: hole cards are dealt and the stage becomes `CompulsoryBets` |
| Texas.Round.BurnAndDeal | texas.go:347-348 | one card is burnt and the next fills the community slot, from the pack; it is no longer in the pack, and it differs from every hole card and every other community card (`CardsApart` in `Core`) |
| Texas.HoleApart | texas.go:312-320 | a card drawn from the pack into a hole slot, with a further card burnt, leaves no card in two places: it differs from every other hole card and every community card, and the pack keeps no copy |
| Texas.CommunityApart | texas.go:347-348 | a card drawn from the pack into a community slot, with a further card burnt, leaves no card in two places |
| Texas.Round.SendMaxHand | texas.go:263-287 | every seat in the hand holds a best hand of its cards and the community cards |
| Texas.Round.SettleFold | texas.go:449-457 | the first seat in the hand earns the whole pot, every other seat 0, and the round ends |
| Texas.Round.SettleShowdown | texas.go:402-404 | the showdown payout of `ShowdownPaid` (the bounds and the top seat's share) holds and the round ends |
| Texas.Round.SetTurn | texas.go:337-338 | sets the actor and the last raiser |
| Texas.Round.MarkFolded | texas.go:520 | the seat's state becomes folded and nothing else changes |
| Texas.Round.Bet | texas.go:762-765 | the seat's stage bet, total bet and the pot all grow by the paid amount |
| Texas.Round.NextStage | texas.go:427-428 | the stage goes up by exactly one |
| Texas.Round.OpenPreflop | texas.go:337-339 | actor and last raiser become the seat after the big blind, and the stage becomes `Preflop` |
| Texas.Round.DealCommunity | texas.go:347-392 | the stage's new community slots are filled from the pack (flop 0-2, turn 3, river 4), and earlier slots are kept |
| Texas.Round.OpenStreet | texas.go:343-370 | the stage bets are cleared, the street is dealt, the last raiser is the first seat in the hand after the dealer, the actor is the dealer, and best hands are known |
| Texas.Round.DealStreet | texas.go:347-370 | the street is dealt and every seat in the hand holds its best hand |
| Texas.Texas.constructor | texas.go:99-107 | a new table has no players, dealer 0, the given buy-in cap and no round |
| Texas.Texas.CountUser | texas.go:205-213 | returns the number of occupied seats |
| Texas.Texas.CountUserInGame | texas.go:216-224 | returns the number of occupied seats in the hand |
| Texas.Texas.AddUser | texas.go:142-183 | refuses an unregistered user, a user already seated, a full table and a balance of 0 or less, changing nothing; otherwise seats the user in the first empty seat with min(balance, cap) chips. A valid table stays valid, also mid-round, where the new seat is out of the hand |
| Table.CountInGameOut | texas.go:173-178 | a seat out of the hand changing occupant leaves the in-hand count unchanged |
| Table.JoinOut | texas.go:173-178 | a user taking an empty seat keeps the seats of the round linked and the in-hand count unchanged |
| Texas.Texas.RemoveUser | texas.go:186-202 | refuses a user with no seat; otherwise empties the user's first seat and returns its chips |
| Texas.Texas.StartRound | texas.go:227-261 | refuses while a round is going on or with fewer than two players, changing nothing; otherwise moves the button to the next occupied seat and starts a fresh round with pot 0 at `Init`, with each seat in the hand exactly when occupied |
| Texas.Texas.MakeBet | texas.go:760-766 | takes min(chips, amount) from the seat, never more than it holds, and adds exactly that to its stage bet, its total bet and the pot |
| Texas.Texas.PostBlind | texas.go:333-336 | the next seat in the hand after `from` bets the blind through `MakeBet`; other seats' bets are unchanged |
| Texas.Texas.PostSmallBlind | texas.go:330-334 | stage bets are cleared and the seat after the dealer bets 50 |
| Texas.Texas.PostBlinds | texas.go:329-336 | the two seats after the dealer bet 50 and 100 (clamped), and every other stage bet is 0 |
| Texas.Texas.CreditChips | texas.go:639-660 | every seat becomes its `Settled` value: each seat in the round is credited its earnings unless it folded, and a seat left with 0 chips or fewer leaves the table |
| Texas.Texas.MoveOn | texas.go:290-410 | runs the stages that need no action until the round waits for a bet or is over. It never lowers the stage or changes who is in the hand. From `Init` or `CompulsoryBets` it posts the blinds as `BlindsStage` states. At the preflop it changes nothing. From the preflop on it changes neither pot nor total bets, and the seats are the old ones, settled if the round ends. At `End` the round is unchanged. With no round it reports "not ready" |
| Texas.Texas.DealStage | texas.go:295-328 | `Init` deals and moves on, so the blinds are posted as `BlindsStage` states |
| Texas.Texas.BlindsStage | texas.go:329-340 | `CompulsoryBets` posts the blinds: the small blind is the first seat in the hand after the dealer and the big blind the next one. They pay 50 and 100, clamped to their chips, and their seats, stage bets, total bets and the pot change by exactly that. Every other seat has stage bet 0 and its total bet unchanged. The stage is `Preflop`, and the actor and last raiser are both the seat after the big blind |
| Texas.Texas.PreflopStage | texas.go:337-341 | the preflop opens: the stage is `Preflop`, the actor and the last raiser are the seat after the big blind, and seats, bets and pot are unchanged |
| Texas.Texas.StreetStage | texas.go:343-401 | flop, turn and river: deal, then `NextPlayer(1)`, leaving pot and total bets unchanged. Seats stay, or are settled if the round ends. The turn goes as `NextPlayer(1)` from the dealer with the first seat in the hand after the dealer as last raiser (`Turned`). While the stage stays, stage bets are 0, the last raiser is that seat and the actor holds chips |
| Texas.Texas.ShowdownStage | texas.go:402-405 | the showdown pays out as `GetResultForShowdown` states (`ShowdownPaid`), the round ends and every seat is settled |
| Texas.Texas.NextPlayer | texas.go:412-433 | the turn moves on along the walk of `Stops`, which starts at the seat after the actor, passes only seats in the hand with no chips and is unique (`StopsUnique`). The stage moves on exactly when the walk stops at the last raiser after passing it `ignoreTimes` times. Otherwise it stops at a seat in the hand with chips, which becomes the actor, and stage bets and the last raiser stay. The stage never goes down, pot and total bets are unchanged, and the seats are the old ones, settled if the round ends |
| Texas.Texas.RotateActor | texas.go:415-426 | the rotation of `Rotate` on the table's own state: the walk satisfies `Stops`, the actor becomes its last seat and the last raiser stays |
| Texas.Texas.Fold | texas.go:517-529 | the user's seat in the hand folds and no other seat's state changes. When one seat is left, that seat earns the whole pot and the round ends. Otherwise pot and total bets are unchanged, and the turn moves on as `NextPlayer(0)` does (`Turned`): stage bets and the last raiser stay while the stage stays. Seats are the old ones, settled if the round ends. A user not in the hand changes nothing |
| Texas.Texas.FoldSeat | texas.go:520-526 | folding a seat in the hand, with the states, pot, bets, seats and turn of `Fold` |
| Texas.Texas.AfterFold | texas.go:521-526 | with one seat left the pot goes to it; otherwise the turn moves on as `NextPlayer(0)` does (`Turned`), with pot and total bets unchanged and the stage bets kept while the stage stays; seats are the old ones, settled if the round ends |
| Texas.Texas.FoldWin | texas.go:521-524 | the first seat in the hand earns the pot, the round ends and every seat is settled |
| Texas.Texas.Call | texas.go:531-541 | refuses, changing nothing, when the seat has already matched the largest stage bet. Otherwise it bets the difference as `Staked` states: the seat pays min(chips, owed), and only its total bet grows, by that amount, as does the pot. The seats are the old ones after that bet (`AfterBet`), settled if the round ends. While the stage stays, only its stage bet grows, by the paid amount, and the last raiser is kept. The turn then moves on as `NextPlayer(0)` does (`Turned`, `Stops`). A user not in the hand changes nothing |
| Texas.Texas.Check | texas.go:543-553 | succeeds exactly when the seat's stage bet is at least the largest. Then seats (settled if the round ends), pot and total bets are unchanged, and so are stage bets and the last raiser while the stage stays. Otherwise it refuses and changes nothing. A user not in the hand changes nothing |
| Texas.Texas.Raise | texas.go:555-571 | refuses, changing nothing, a raise below 100 or one that needs all the seat's chips. Otherwise the seat bets the raise plus what it owed (`RaiseCost`), as `Staked` states. It has more chips than that, so it pays all of it. Only its total bet grows, by that amount, as does the pot, and only its seat loses those chips, all seats being settled if the round ends. While the stage stays, only its stage bet changes, to the largest bet plus the raise, and the seat is the last raiser. The turn then moves on as `NextPlayer(0)` does, with the seat as last raiser. A user not in the hand changes nothing |
| Texas.Texas.RaiseSeat | texas.go:558-569 | the refusals and the successful raise of `Raise`, with the same `Staked` outcome, for a seat in the hand |
| Texas.Texas.AllIn | texas.go:583-594 | the seat bets all its chips, as `Staked` states: it pays them all (the `Paid` clause), so only its total bet and the pot grow by them. Its chips become 0 (`AfterBet`) and the other seats are unchanged, or all are settled if the round ends. While the stage stays, only its stage bet grows by them, and it is the last raiser exactly when that tops the largest bet (else the last raiser is kept). The turn then moves on as `NextPlayer(0)` does. A user not in the hand changes nothing |
| Texas.Texas.AllInSeat | texas.go:585-592 | the all-in of `AllIn` for a seat in the hand, with the same `Staked` outcome |
| Texas.Texas.BetSeat | texas.go:565-567 | the bet and the turn that follows, as `Staked` bundles them: pot and only this seat's total bet grow by what the seat can pay (`Paid`), and the seats are the old ones after that bet (`AfterBet`), settled if the round ends. While the stage stays, only its stage bet grows by that amount, and the last raiser is the seat when it raises, else unchanged. The turn then moves on as `NextPlayer(0)` does from the state the bet left (`Turned`) |

## Left out

- Chat and sticker output (`SendMessage`, `SendSticker`), the status text and buttons of `ShowStatus`, and the showdown text are not modelled: they are display and network I/O.
- The key-value store is not modelled. `AddUser` takes the chat lookup as a `registered` flag and the wallet read as an optional balance. Its store error paths and the wallet updates of `AddUser` and `RemoveUser` are left out.
- `SendMaxHand` skips a seat whose chat lookup fails. The model assumes the lookup succeeds and always computes the hand.
- The `Init` stage returns early when a seat's chat lookup or its `SendMessage` fails (texas.go:301-311). The round then stays at `Init` with only the seats before it dealt. The model assumes both succeed, and `Round.DealHoleCards` deals every seat in the hand.
- Randomness is not modelled. `rand.Perm` is a permutation parameter, and `rand.Intn` in `Deal` is an index chosen by the caller (`:|` in `Round.DrawCard`). Uniformity is not stated.
- Texas.Texas.constructor: the chat bot handle and chat id of `NewTexas` are not modelled, because they only serve I/O.
- `GetOut` (texas.go:573-581) is not modelled. It dereferences possibly empty seats and is reached only from the leave command.
- The wiring in main.go and game.go is not part of this model. The command routing, the per-chat lock and the turn guard ("the round is not over and the sender is the actor") are not modelled. The actions are specified for any caller while a betting stage is open (`Acting`).
- Integers are unbounded. The model does not capture `int64` overflow of chips, bets or the pot.
- Texas.Texas.NextPlayer: requires `WillStop`, meaning the last raiser is still in the hand or some seat in the hand has chips. Without it the Go loop never ends (`Texas.RotationHangs`). This happens, for example, when the last raiser folds with every other seat in the hand all in. `Fold`, `Call`, `Check` and `AllIn` carry the same condition for the state they hand to `NextPlayer`.
- Texas.Texas.Call: states the new stage bets and last raiser only when the stage stays. When the stage moves on, the next street resets them (`StreetStage`), and `Staked` leaves them to `MoveOn`.
- Texas.Texas.Raise: likewise states the new stage bets and last raiser only when the stage stays.
- Texas.Texas.AllIn: likewise.
- Texas.Texas.BetSeat: likewise, and the same holds for `RaiseSeat` and `AllInSeat`.
- Texas.Texas.MoveOn: when it runs from a street or the showdown on, it does not state the new stage bets or community cards. `StreetStage`, `Round.DealCommunity` and `Round.OpenStreet` state them stage by stage.
- Texas.GetResultForShowdown: states the exact share only for one top seat, the first winner paid. The shares of the other winners and of the losers depend on what is left when their turn comes; for them it states the bounds. It does not state that the whole pot is paid out: integer division, the per-winner cap and folded seats' bets can leave part of it unpaid.
- Settlement.Payout: the same gap as `GetResultForShowdown`: the exact share only for the top seat, bounds for the rest, no conservation of the pot.
- Texas.Round.SettleShowdown: carries `ShowdownPaid`, so the same gap as `GetResultForShowdown`.
- Texas.Texas.ShowdownStage: carries `ShowdownPaid`, so the same gap as `GetResultForShowdown`.
- Settlement.SortHands: the insertion sort fixes one order among seats with equal hands and equal bets, where `sort.Sort` promises none. Only the split of `rest / winnerCount` among such seats depends on that order.
- Hands.LessThanHighCard: the Go `panic` on unequal lengths is a precondition. So are the `panic`s of `GetRank` on unsorted input, of `getPairsAndRest` (`Hands.PairsShaped` is exactly the set of hands it reads without one) and `getThreeAndHighLow` on hands of another category, of `getTopCards` with too few cards, and of `NextValidIndex` on a table with no seat in the hand (texas.go:757): `Round.NextValidIndex` requires some seat in the hand.
