# poker-chips table engine in Dafny

This project models the table engine of the poker-chips app. The engine is a
ten-seat Texas hold'em chip table. Players sit down with a buy-in and stand
up. The dealer button and the blinds move around the table. A hand is dealt,
the blinds are posted and the action passes from seat to seat. Players bet,
call, raise, check and fold. At the end of each street the bets are gathered
into pots, and on the river the hands are turned up for the showdown.

The model has two layers.

- **The value layer.** The table is the datatype `TableModel.TableState`.
  Every operation is a function from a table to the table it leaves, or to an
  `Outcome` or `Result` when it can throw. There is one module per concern:
  - `TableModel`: the table, its players and pots, the filters the source builds with `players.filter`, and the chip totals;
  - `Rotation`: clockwise and counter-clockwise seat scans, and `moveDealer`;
  - `PotEngine`: `gatherBets` and its all-in passes;
  - `BettingRound`: `nextAction`, `nextRound`, `showdown` and `resetPosition`;
  - `Seating`: `sitDown`, `standUp` and `cleanUpTable`;
  - `Dealing`: `dealCards`;
  - `PlayerActions`: the five player actions and `getLegalActions`.
- **The imperative layer.** `TableLogic.Store` mirrors `model/logic/tableLogic.ts`.
  It is one object whose table the methods update in place. The seat scans,
  the all-in passes and the per-player loops are `while` loops with
  invariants. Each method is proved to leave the object in exactly the state
  the value function describes. Everything proved about the value layer
  therefore holds of the object.

Modelling choices:

- A player is identified by a seat. Pot eligibility lists hold seat indices.
- Positions are `Option<SeatIndex>`; `undefined` is `None`.
- JavaScript truthiness of an optional number (`!table.currentBet`,
  `!player.raise`) is `Val(o) == 0`, so `undefined` and `0` behave alike.
- An exception thrown after the table has already changed is an `Outcome`
  that carries the changed table. This happens in `dealCards`, which cleans
  up before it counts the players, and in `sitDown`, whose `moveDealer` can
  throw. A throw that happens before any change is a `Result`.
- The scans that the source writes as a loop or as a repeated recursive call
  are bounded. `nextAction` gets one full turn of the table, `StepBound`.

Where the code does not do what it plainly means, the model follows the
intended behaviour and says so at the definition.

- The scan loops of `moveDealer` and `dealCards` in `tableSlice.ts` test the
  store before the update rather than the table being built. They are
  modelled as the circular scans of `tableLogic.ts`.
- `betAction`, `checkAction` and `foldAction` compare `this`, which is
  `undefined` inside the slice's arrow functions, with the current actor,
  which never is. As written they refuse every player as out of turn
  (`PlayerActions.ActionsAsWrittenAlwaysOutOfTurn`, listed under "Findings").
  They are modelled with the comparison `callAction` and `raiseAction` make,
  between the player and the current actor.
- `gatherBets` is modelled as written except for its lone-bettor branch and
  the object-identity effects listed under "Left out".
  The pot is captured once before the all-in loop, so every chip lands in
  that one pot while fresh empty pots are pushed behind it
  (`PotEngine.GatherBetsSinglePot`). With at most one bettor, the source
  hands the bet back and then writes a copy of the store's network player
  list `store.players` over the seats. The model keeps the seats with the
  bet handed back (`PotEngine.GatherBets`); the branch as written is
  `PotEngine.GatherBetsAsWritten`, listed under "Findings".
- `showdown` in `tableSlice.ts` turns up the cards of the players still in
  and then writes back the copy of the players it read before gathering the
  bets, so the cards it turned up are face down again. The model keeps the
  turned-up cards (`BettingRound.ShowHands`).
- `sitDown` treats a requested seat of 0 as no seat requested, as the source
  does.
- Four places where the code contradicts its own comments or its evident
  purpose are listed under "Findings". For each, the model proves the
  behaviour as written and uses the corrected definition everywhere else.

## Model

| member | source | states |
|---|---|---|
| TableModel.SelectFrom | model/store/slices/tableSlice.ts:108-126 | a filter keeps exactly the seats that pass its test, in increasing seat order |
| TableModel.PlayerAt | model/store/slices/tableSlice.ts:134-138 | the player at a position is present exactly when the position is set and its seat is occupied |
| TableModel.InitialTable | model/store/slices/tableSlice.ts:76-93 | a new table has no seated player, no round, no positions and no pots, blinds 5 and 10, buy-in 0, hand number 0, the button moving and debug off |
| TableModel.CurrentPot | model/store/slices/tableSlice.ts:140-151 | the current pot is the last pot; with no pots, a single empty pot is created first |
| TableModel.SidePots | model/store/slices/tableSlice.ts:164-171 | there are no side pots exactly when there is at most one pot; otherwise the side pots are every pot but the last |
| Rotation.ScanFrom | model/logic/tableLogic.ts:16-23 | a clockwise scan from a seat stops at the first seat that passes the test, having passed only seats that fail it |
| Rotation.NextFrom | model/logic/tableLogic.ts:16-23 | the first seat clockwise that passes the test, or none exactly when no seat passes |
| Rotation.NextOccupied | model/logic/tableLogic.ts:16-23 | the first occupied seat clockwise from a seat, or none exactly when the table is empty |
| Rotation.PrevFrom | model/store/slices/playerSlice.ts:126-137 | the first seat counter-clockwise that passes the test, or none exactly when no seat passes |
| Rotation.ScanForward | model/logic/tableLogic.ts:268-283 | the loop's result equals the clockwise scan NextFrom |
| Rotation.ScanBackward | model/store/slices/playerSlice.ts:126-137 | the loop's result equals the counter-clockwise scan PrevFrom |
| Rotation.MoveDealer | model/logic/tableLogic.ts:5-58 | throws "no seated players" exactly when every seat is empty; otherwise sets all three positions to occupied seats and changes nothing else |
| Rotation.MoveDealerPositions | model/logic/tableLogic.ts:10-56 | the dealer is the first occupied seat from the requested seat, taken modulo ten; the small blind is the first after the dealer; the big blind is the first after the small blind |
| Rotation.MoveDealerDistinct | model/logic/tableLogic.ts:24-56 | with two players seated, the small blind is not the dealer and the big blind is not the small blind |
| Rotation.MoveDealerMovesOn | model/logic/tableLogic.ts:10-23 | when some seat other than the dealer's is taken, moving the button from the seat after the dealer gives a different dealer |
| TableModel.Acting | model/store/slices/tableSlice.ts:110-117 | the acting test: seated, not folded, chips behind, and no bet to face, no raise of one's own, or short of the bet |
| TableModel.ActingSeats | model/store/slices/tableSlice.ts:108-119 | `getActingPlayers`: the seats passing the acting test, in seat order |
| TableModel.ActiveSeats | model/store/slices/tableSlice.ts:120-126 | `getActivePlayers`: the seats whose player has not folded, in seat order |
| PotEngine.Bettors | model/store/slices/tableSlice.ts:482-484 | the betting players are exactly the seats with a positive bet, in seat order |
| PotEngine.AllIn | model/logic/tableLogic.ts:350-352 | a seat is all in exactly when its player has a non-zero bet and an empty stack |
| PotEngine.AllInAmong | model/logic/tableLogic.ts:350-352 | the all-in bettors are exactly the listed seats whose player has a bet and an empty stack |
| PotEngine.LowestFrom | model/logic/tableLogic.ts:357-363 | the `reduce` from a starting value is at most that value and every listed bet, and is the start or one of the listed bets |
| PotEngine.LowestBet | model/logic/tableLogic.ts:357-363 | the lowest all-in bet is the bet of one of the listed seats and no listed bet is lower |
| PotEngine.PassFromBets | model/logic/tableLogic.ts:366-383 | one pass cuts each bettor's bet by the lowest all-in bet, down to zero at most, and leaves every other seat alone |
| PotEngine.PassZeroesLowest | model/logic/tableLogic.ts:366-383 | a pass empties the bet of every all-in player whose bet was the lowest |
| PotEngine.PassShrinks | model/logic/tableLogic.ts:350-391 | every pass strictly shrinks the set of all-in bettors, so the all-in loop ends |
| PotEngine.Pass | model/logic/tableLogic.ts:350-391 | a pass only changes bets and keeps every chip; it changes only the captured pot and pushes one empty pot |
| PotEngine.Passes | model/logic/tableLogic.ts:350-391 | the all-in loop never removes pots |
| PotEngine.PassesFrame | model/logic/tableLogic.ts:350-391 | the all-in loop only changes bets, and only those of the betting players |
| PotEngine.PassesConserve | model/logic/tableLogic.ts:350-391 | the all-in loop keeps every chip, and ends with no betting player all-in with a bet left |
| PotEngine.PassesPots | model/logic/tableLogic.ts:350-391 | the all-in loop leaves every pot but the captured one unchanged, and every pot it pushes is empty |
| PotEngine.PassFrom | model/logic/tableLogic.ts:366-383 | one pass over the bettors only changes bets and moves every chip it takes into the captured pot |
| PotEngine.CutSeat | model/logic/tableLogic.ts:367-377 | a bettor's bet after a pass: less the lowest all-in bet, or zero when smaller |
| PotEngine.Cut | model/logic/tableLogic.ts:367-377 | a bet at or above the lowest all-in bet loses that amount; a smaller bet is taken whole and becomes 0 |
| PotEngine.CutPot | model/logic/tableLogic.ts:367-382 | the captured pot after one bettor's turn: the chips taken added and the bettor made eligible |
| PotEngine.Gather | model/logic/tableLogic.ts:329-415 | the seats and pots `gatherBets` leaves: lone bet handed back, or the all-in passes, the sweep and the eligibility filter in turn |
| PotEngine.SweepFrom | model/logic/tableLogic.ts:394-401 | the sweep empties the bet of every listed seat into the pot, keeps every chip and changes nothing but bets |
| PotEngine.Refunded | model/logic/tableLogic.ts:335-346 | a lone bet goes back onto its player's stack |
| PotEngine.ReturnBets | model/logic/tableLogic.ts:335-346 | every listed seat gets its bet back; every other seat is unchanged |
| PotEngine.KeepWinners | model/logic/tableLogic.ts:404-409 | the eligibility filter keeps exactly the listed seats whose player has neither folded nor left |
| PotEngine.MayWin | model/logic/tableLogic.ts:404-409 | a pot keeps a player exactly when they have neither folded nor left |
| PotEngine.FilterPots | model/logic/tableLogic.ts:404-409 | every pot keeps its amount and loses the players who folded or left |
| PotEngine.GatherBets | model/logic/tableLogic.ts:329-415 | gathering the bets changes only the players and the pots |
| PotEngine.GatherBetsConserves | model/logic/tableLogic.ts:329-415 | gathering the bets keeps every chip on the table |
| PotEngine.GatherBetsClearsBets | model/logic/tableLogic.ts:329-415 | after gathering, no player has a bet |
| PotEngine.GatherBetsMovesBetsIntoPots | model/logic/tableLogic.ts:350-409 | only bets change, and the pots grow by exactly the sum of the bets |
| PotEngine.GatherBetsKeepsSitters | model/logic/tableLogic.ts:329-415 | gathering seats and unseats nobody and folds nobody |
| PotEngine.GatherBetsReturnsLoneBet | model/logic/tableLogic.ts:335-346 | with at most one bettor, the pots are unchanged and the bet goes back onto the stack |
| PotEngine.GatherBetsSinglePot | model/store/slices/tableSlice.ts:509-546 | as written, only the captured current pot changes; every other pot keeps its amount and every pushed pot is empty |
| PotEngine.GatherBetsEligibility | model/logic/tableLogic.ts:404-409 | after gathering, no pot lists a player who folded or left |
| PotEngine.GatherBetsAsWritten | model/logic/tableLogic.ts:335-346 | as written, with at most one bettor the seats become a copy of the network player list; otherwise it is GatherBets |
| PotEngine.GatherBetsAsWrittenLosesChips | model/logic/tableLogic.ts:343-345 | as written, a street with at most one bettor ends with only the pots' chips on the table, fewer than before whenever a seated player had chips |
| BettingRound.RevealActive | model/store/slices/tableSlice.ts:681-689 | every player still in turns up their cards; nothing else changes |
| BettingRound.RevealUnfolded | model/logic/tableLogic.ts:499-509 | every seated player shows their cards exactly when they have not folded |
| BettingRound.EndHand | model/store/slices/tableSlice.ts:673-679 | the hand's round and positions are cleared, bets are gathered to zero, chips are kept and the seating is unchanged |
| BettingRound.ShowHands | model/store/slices/tableSlice.ts:681-689 | with more than one player still in, they all show their cards; with one, nothing changes |
| BettingRound.Showdown | model/store/slices/tableSlice.ts:670-697 | the showdown ends the hand: no round, no positions, no bets, chips and seating kept, and the remaining players show when more than one is left |
| BettingRound.MovesOn | model/logic/tableLogic.ts:320-326 | the action moves again when the seat holds nobody who can act, or when there is no bet and only one player can act |
| BettingRound.NextSeat | model/logic/tableLogic.ts:310-317 | the action moves one seat clockwise, wrapping after the last seat |
| BettingRound.SkipIdle | model/logic/tableLogic.ts:304-326 | the moves past seats that cannot act use no more steps than they are given |
| BettingRound.NextAction | model/logic/tableLogic.ts:294-327 | passing the action never goes back to an earlier street, keeps the chips, the settings, the button and who is seated and folded |
| BettingRound.NextActionLastPlayerStanding | model/logic/tableLogic.ts:298-301 | when one player is left in, the hand ends: no round, no positions and no bets |
| BettingRound.NextActionAtLastLeavesRound | model/logic/tableLogic.ts:304-307 | when the action is at the last position, the table moves to a later street or ends the hand |
| BettingRound.NextActionPassesToNextSeat | model/logic/tableLogic.ts:310-326 | otherwise the action goes to the next seat clockwise, and stays there when that player can act and the move-on test fails |
| BettingRound.NextActionLeavesIdleSeat | model/logic/tableLogic.ts:294-327 | the action never stops at a seat whose player cannot act; either it moves elsewhere or the street ends |
| BettingRound.OpenRound | model/logic/tableLogic.ts:444-498 | a new street starts with no bet, no raise and no pending bets, keeping chips and seating |
| BettingRound.OpenRoundClearsBets | model/logic/tableLogic.ts:444-498 | opening a street moves every pending bet into the pots |
| BettingRound.NextStreet | model/logic/tableLogic.ts:444-498 | the flop, turn and river follow in order, each with no bet and no raise, keeping chips and seating |
| BettingRound.TurnUpHands | model/logic/tableLogic.ts:499-509 | on the river every seated player shows exactly when they have not folded; nothing else changes |
| BettingRound.NextRound | model/logic/tableLogic.ts:417-511 | with no hand under way nothing changes; otherwise the table moves to a later street or ends the hand, keeping chips and seating |
| BettingRound.ResetPosition | model/logic/tableLogic.ts:420-441 | placing the action never goes back to an earlier street and keeps chips and seating |
| BettingRound.ResetPositionPlacesAction | model/logic/tableLogic.ts:420-441 | with a dealer, when the first seated player after the dealer can act and so can someone else, the action is theirs and the dealer acts last |
| BettingRound.ResetPositionWithoutDealer | model/logic/tableLogic.ts:420-441 | with no dealer, the model clears both positions; the source instead scans from a NaN position (see "Left out") |
| Seating.MarkLeft | model/logic/tableLogic.ts:139-146 | a player leaving during a hand is folded and marked as leaving, keeps their chips and can no longer act |
| Seating.Vacate | model/logic/tableLogic.ts:153-173 | leaving between hands empties the seat; if it held the button, the button moves to a seated player, or every position is cleared when nobody is left |
| Seating.StandUpSeat | model/logic/tableLogic.ts:139-173 | during a hand the player is folded and marked as leaving and chips are kept; between hands the seat is vacated; nobody else is affected |
| Seating.StandUpPassesAction | model/logic/tableLogic.ts:147-152 | a departing player who held the action no longer holds it, or the street is over |
| Seating.StandUp | model/logic/tableLogic.ts:129-177 | standing up a player object acts only on a seated player not already leaving, and returns that one seat |
| Seating.StandUpEach | model/store/slices/tableSlice.ts:357-360 | standing up each listed player keeps the table's settings and hand count |
| Seating.RemoveEach | model/store/slices/tableSlice.ts:351-354 | removing each listed player keeps the table's settings and hand count |
| Seating.MatchingSeats | model/logic/tableLogic.ts:122-125 | the players matched by id are exactly the seated players with that id who are not leaving |
| Seating.StandUpById | model/logic/tableLogic.ts:121-177 | standing up by id throws "no player found" without changes exactly when nobody matches; otherwise it returns the matched seats |
| Seating.ResetHand | model/logic/tableLogic.ts:195-208 | every seated player is reset for a new hand, with one empty pot, no bet and no raise |
| Seating.LeavingSeats | model/logic/tableLogic.ts:183-185 | the leaving players are exactly the seated players marked as leaving |
| Seating.BustedSeats | model/logic/tableLogic.ts:189-191 | the busted players are exactly the seated players with an empty stack |
| Seating.CleanUp | model/logic/tableLogic.ts:179-209 | cleaning up keeps the settings, leaves one empty pot and clears the bet and the raise |
| Seating.CleanUpSeats | model/logic/tableLogic.ts:179-209 | between hands, cleaning up keeps exactly the players who are not leaving and have chips, each reset for the next hand |
| Seating.CleanUpRemovesLeavingAndBusted | model/logic/tableLogic.ts:179-209 | between hands, nobody leaving or broke is seated after cleaning up, and everyone seated is in the next hand |
| Seating.FirstEmpty | model/store/slices/tableSlice.ts:267-275 | the first empty seat is empty and every seat before it is occupied; there is none exactly when the table is full |
| Seating.ChosenSeat | model/store/slices/tableSlice.ts:254-275 | the seat chosen for a newcomer is empty |
| Seating.TakeSeat | model/store/slices/tableSlice.ts:277-285 | during a hand the player just takes the seat; between hands the table is cleaned up and the button is placed, throwing "no seated players" when the clean-up emptied the table |
| Seating.SitDown | model/store/slices/tableSlice.ts:236-286 | the four refusals in order without changes: table full, buy-in too low, duplicate player unless in debug, requested seat refused; otherwise the newcomer takes the chosen seat |
| Seating.SitDownBetweenHands | model/store/slices/tableSlice.ts:258-285 | between hands a newcomer with chips takes the chosen seat and is in the next hand, and the dealer is a seated player |
| Seating.SitDownZeroBuyInEmptiesSeat | model/logic/tableLogic.ts:71-111 | between hands a buy-in of 0, which passes the minimum of 0 on a new table, is stood up as busted by the clean-up, so the seat `sitDown` returns is empty |
| Seating.SitDownDuringHand | model/store/slices/tableSlice.ts:258-279 | during a hand a newcomer takes the seat with the buy-in, sits out the hand, nothing else changes, and the chips on the table grow by the buy-in |
| Seating.StandUpSeatAsWritten | model/logic/tableLogic.ts:139-173 | one departure as written: during a hand the player folds and is marked as leaving, and while two others can act the table stays exactly so, whoever held the action; between hands the seat is vacated |
| Seating.Advances | model/logic/tableLogic.ts:147-150 | the test meant for moving the action on: the departing player held it, or at most one player can act |
| Seating.AdvancesAsWritten | model/logic/tableLogic.ts:147-150 | the test as written: the first comparison is always false, so only the count of acting players decides |
| Seating.CleanUpAsWritten | model/logic/tableLogic.ts:179-209 | `cleanupTable` as written keeps the settings, leaves one empty pot and clears the bet and the raise |
| Seating.HasId | model/logic/tableLogic.ts:76-79 | some seated player has the id |
| Seating.SeatRefused | model/logic/tableLogic.ts:82-84 | a requested seat other than 0 is refused when it is off the table or taken |
| Seating.MaySit | model/logic/tableLogic.ts:67-84 | every test of `sitDown` passes |
| Seating.Newcomer | model/logic/tableLogic.ts:86-93 | the new player has the buy-in as stack, no bet, and is folded when a hand is under way |
| Seating.ResetPlayer | model/logic/tableLogic.ts:195-201 | a player is reset with no bet, no raise, unfolded and cards hidden |
| Seating.CleanUpAsWrittenKeepsLeaving | model/logic/tableLogic.ts:182-192 | as written, a player who left during the hand is still seated after cleaning up, and is dealt into the next hand |
| Seating.StandUpAsWrittenKeepsAction | model/logic/tableLogic.ts:147-152 | as written, a departing player who held the action keeps it while two others can still act |
| Dealing.Posted | model/logic/tableLogic.ts:245-256 | a blind is the blind amount, or the whole stack when the stack is short; the chips move from stack to bet |
| Dealing.PostBlindsSharedSeat | model/logic/tableLogic.ts:240-257 | with one seat holding both blinds, its bet is the big blind alone while its stack pays both, so the small blind's chips leave the table |
| Dealing.MoveButton | model/logic/tableLogic.ts:233-236 | from the second hand on, when the table moves the button, it goes to the first seated player after the dealer and the blinds follow; otherwise nothing changes |
| Dealing.PostBlinds | model/logic/tableLogic.ts:238-291 | posting the blinds throws on an unset or empty blind seat; otherwise it changes only the two blind seats, sets the bet to the big blind, puts the action on the first seated player after the big blind and makes the big blind last |
| Dealing.StartHand | model/logic/tableLogic.ts:221-291 | with fewer than two players in, it throws "not enough players" without further change |
| Dealing.BeginHand | model/logic/tableLogic.ts:226-291 | the round becomes pre-flop with the hand number raised, the button moves as Dealing.MoveButton and the blinds are posted as Dealing.PostBlinds; what results is stated by Dealing.BeginHandStarts, Dealing.BeginHandPostsBlinds and Dealing.BeginHandMovesButton |
| Dealing.DealCards | model/logic/tableLogic.ts:211-292 | with a hand under way it throws before any change; otherwise it cleans up and then starts the hand |
| Dealing.BeginHandStarts | model/logic/tableLogic.ts:226-291 | a started hand is pre-flop with the next hand number, the bet at the big blind and the action after the big blind |
| Dealing.DealCardsStartsHand | model/logic/tableLogic.ts:211-292 | a dealt hand is pre-flop with the next hand number, one empty pot, the bet at the big blind, the action on the first seated player after the big blind, and the big blind last |
| Dealing.DealCardsDealsEveryoneIn | model/logic/tableLogic.ts:219-224 | everyone seated in a dealt hand is in it and not leaving |
| Dealing.PostBlindsBets | model/logic/tableLogic.ts:240-257 | each blind player posts the blind or their whole stack, and no chip is lost |
| Dealing.BeginHandPostsBlinds | model/logic/tableLogic.ts:226-257 | a started hand posts both blinds from the stacks it began with, and no chip is lost |
| Dealing.DealCardsPostsBlinds | model/logic/tableLogic.ts:211-257 | a dealt hand posts both blinds from the stacks left after the clean-up, and no chip is lost |
| Dealing.BeginHandMovesButton | model/logic/tableLogic.ts:233-236 | with two players seated, from the second hand on, the button moves to a different seat, the first seated one after the old dealer, and the blinds follow it |
| Dealing.DealCardsMovesButton | model/logic/tableLogic.ts:211-236 | the same for a dealt hand, measured on the table after the clean-up |
| PlayerActions.OnTurn | model/store/slices/playerSlice.ts:56-58 | the action is on the player's seat |
| PlayerActions.CurrentActor | model/store/slices/tableSlice.ts:134-138 | `getCurrentActor()`: a seated player exactly when the current position holds one, otherwise `null`, never `undefined` |
| PlayerActions.OnTurnAsWritten | model/store/slices/playerSlice.ts:34-36 | the `this === getCurrentActor()` test as written, with `this` undefined |
| PlayerActions.BetActionWith | model/store/slices/playerSlice.ts:31-52 | `betAction` after its out-of-turn test: the legality, amount, existing-bet, big-blind and stack tests in source order, then the raise |
| PlayerActions.CheckActionWith | model/store/slices/playerSlice.ts:145-155 | `checkAction` after its out-of-turn test: the legality test, then `nextAction` |
| PlayerActions.FoldActionWith | model/store/slices/playerSlice.ts:156-170 | `foldAction` after its out-of-turn test: the legality test, the fold, then `nextAction` |
| PlayerActions.BetActionAsWritten | model/store/slices/playerSlice.ts:31-52 | `betAction` with the `this` test as written |
| PlayerActions.CheckActionAsWritten | model/store/slices/playerSlice.ts:145-155 | `checkAction` with the `this` test as written |
| PlayerActions.FoldActionAsWritten | model/store/slices/playerSlice.ts:156-170 | `foldAction` with the `this` test as written |
| PlayerActions.ActionsAsWrittenAlwaysOutOfTurn | model/store/slices/playerSlice.ts:145-170 | as written, bet, check and fold throw "out of turn" for every table and seat, while the player on turn may always fold, and may check or bet when no bet is out |
| PlayerActions.MayRaise | model/store/slices/playerSlice.ts:182-196 | the raise test: more chips than the bet, someone able to act, and for a player short of the bet no own raise above the last raise |
| PlayerActions.MinRaise | model/store/slices/playerSlice.ts:102 | the minimum raise is the last raise, or the big blind when there is none |
| PlayerActions.RaiseBy | model/store/slices/playerSlice.ts:103 | the raise is the amount above the current bet, or the whole amount with no bet |
| PlayerActions.TooSmall | model/store/slices/playerSlice.ts:105-112 | a raise below the minimum that does not take the whole stack is refused |
| PlayerActions.LegalActions | model/store/slices/playerSlice.ts:171-202 | fold is always last; with no bet, check, bet and fold; check needs a matched bet; call needs a bet to face; raise needs more chips than the bet and a raise the player may make |
| PlayerActions.LegalActionsFoldNeverCheckAndCall | model/store/slices/playerSlice.ts:171-202 | fold is always legal, and check and call are never both legal |
| PlayerActions.LegalActionsRaiseNeedsChips | model/store/slices/playerSlice.ts:182-196 | a raise is legal only with more chips than the current bet |
| PlayerActions.Called | model/store/slices/playerSlice.ts:65-75 | a call matches the bet and clears the raise, or goes all-in when the stack is short; chips are kept |
| PlayerActions.Put | model/store/slices/playerSlice.ts:65-78 | after a player is updated in place, that seat holds the new player, every other seat and the rest of the table are unchanged, and no chip is lost when the player's stack and bet keep their total |
| PlayerActions.CallAction | model/store/slices/playerSlice.ts:53-80 | out of turn and illegal calls throw without change; a call succeeds exactly when it is the player's turn and call is legal |
| PlayerActions.CallActionNeverNoBet | model/store/slices/playerSlice.ts:62-64 | the "no bet to call" error is never reached |
| PlayerActions.ShortAllIn | model/store/slices/playerSlice.ts:113-117 | an all-in short of a full raise puts the whole stack in and raises the current bet to it, leaving the last raise alone |
| PlayerActions.RaiseChips | model/store/slices/playerSlice.ts:118-124 | a full raise moves the amount from stack to bet, makes that bet the current bet, and records the raise when there was a bet to raise |
| PlayerActions.FullRaise | model/store/slices/playerSlice.ts:118-137 | after a full raise the last position is the first acting player counter-clockwise behind the raiser |
| PlayerActions.FullRaiseLastActor | model/store/slices/playerSlice.ts:126-137 | after a full raise the last actor, when there is one, can act and no seat passed over behind the raiser can; there is none exactly when nobody can act |
| PlayerActions.Raised | model/store/slices/playerSlice.ts:103-137 | a raise short of the minimum is an all-in; otherwise it is a full raise; chips are kept |
| PlayerActions.RaiseAction | model/store/slices/playerSlice.ts:81-144 | out of turn, illegal, missing, too large and too small amounts throw without change; a raise succeeds exactly when none of these applies, the table is then what `nextAction` leaves after the raise, and the chips are kept |
| PlayerActions.RaisedKeepsBetRising | model/store/slices/playerSlice.ts:113-121 | a raise never lowers the current bet |
| PlayerActions.BetAction | model/store/slices/playerSlice.ts:31-52 | out of turn and illegal bets throw, as do bets below the big blind or above the stack; a bet that passes is the raise of the same amount |
| PlayerActions.BetActionSucceeds | model/store/slices/playerSlice.ts:31-52 | on one's turn with no bet or raise yet, a bet from the big blind up to the stack succeeds |
| PlayerActions.BetActionNeverAlreadyPlaced | model/store/slices/playerSlice.ts:43-45 | the "already a bet on the table" error is never reached |
| PlayerActions.CheckAction | model/store/slices/playerSlice.ts:145-155 | a check succeeds exactly when it is the player's turn and check is legal; the table is then exactly the one `nextAction` leaves, so no chip moves |
| PlayerActions.FoldAction | model/store/slices/playerSlice.ts:156-170 | a fold succeeds exactly when it is the player's turn; the table is then exactly the one `nextAction` leaves after the player is folded, the player stays folded and no chip moves |
| TableLogic.Reported | model/logic/tableLogic.ts:5-8 | a thrown error is reported as that error, a normal return as its value |
| TableLogic.Settled | model/store/slices/playerSlice.ts:31-170 | a player action that throws leaves the table as it was; one that returns leaves the table it computed |
| TableLogic.Store.constructor | model/store/slices/tableSlice.ts:76-93 | a new store holds the empty table with blinds 5 and 10 |
| TableLogic.Store.MoveDealer | model/logic/tableLogic.ts:5-58 | the method's table and result are those of Rotation.MoveDealer |
| TableLogic.Store.ReturnBets | model/logic/tableLogic.ts:335-346 | the loop returns each listed bet to its stack, as PotEngine.ReturnBets |
| TableLogic.Store.PassOnce | model/logic/tableLogic.ts:366-383 | one pass of the all-in loop, as PotEngine.PassFrom |
| TableLogic.Store.PassAll | model/logic/tableLogic.ts:350-391 | the all-in loop, as PotEngine.Passes |
| TableLogic.Store.Sweep | model/logic/tableLogic.ts:394-401 | the sweep of the remaining bets, as PotEngine.SweepFrom |
| TableLogic.Store.FilterEligible | model/logic/tableLogic.ts:404-409 | the eligibility filter, as PotEngine.FilterPots |
| TableLogic.Store.GatherBets | model/logic/tableLogic.ts:329-415 | the table after gathering equals PotEngine.GatherBets of the table before |
| TableLogic.Store.Showdown | model/store/slices/tableSlice.ts:670-697 | the table after the showdown equals BettingRound.Showdown of the table before |
| TableLogic.Store.MoveOn | model/logic/tableLogic.ts:310-326 | the moves past seats that cannot act, as BettingRound.SkipIdle |
| TableLogic.Store.NextAction | model/logic/tableLogic.ts:294-327 | the table after passing the action equals BettingRound.NextAction of the table before |
| TableLogic.Store.NextRound | model/logic/tableLogic.ts:417-511 | the table after the street ends equals BettingRound.NextRound of the table before |
| TableLogic.Store.NextStreet | model/logic/tableLogic.ts:444-498 | opening the next street, as BettingRound.NextStreet |
| TableLogic.Store.ResetPosition | model/logic/tableLogic.ts:420-441 | placing the action for a new street, as BettingRound.ResetPosition |
| TableLogic.Store.StandUpSeat | model/logic/tableLogic.ts:136-174 | one departure, as Seating.StandUpSeat |
| TableLogic.Store.LeaveHand | model/logic/tableLogic.ts:139-152 | a departure during a hand, as Seating.StandUpSeat |
| TableLogic.Store.Vacate | model/logic/tableLogic.ts:153-173 | a departure between hands, as Seating.Vacate |
| TableLogic.Store.StandUp | model/logic/tableLogic.ts:129-177 | standing up a player object, as Seating.StandUp |
| TableLogic.Store.StandUpEach | model/logic/tableLogic.ts:189-192 | the loop standing up each listed player, as Seating.StandUpEach |
| TableLogic.Store.RemoveEach | model/logic/tableLogic.ts:182-186 | the loop removing each listed player, as Seating.RemoveEach |
| TableLogic.Store.StandUpById | model/logic/tableLogic.ts:121-177 | standing up by id, as Seating.StandUpById |
| TableLogic.Store.ResetHand | model/logic/tableLogic.ts:195-208 | the per-player reset loop and the pot reset, as Seating.ResetHand |
| TableLogic.Store.CleanUp | model/logic/tableLogic.ts:179-209 | the table after cleaning up equals Seating.CleanUp of the table before |
| TableLogic.Store.FindEmpty | model/logic/tableLogic.ts:96-105 | the seat loop finds the first empty seat |
| TableLogic.Store.SitDown | model/logic/tableLogic.ts:60-114 | the method's table and result are those of Seating.SitDown |
| TableLogic.Store.TakeSeat | model/logic/tableLogic.ts:107-113 | placing the newcomer and, between hands, cleaning up and placing the button, as Seating.TakeSeat |
| TableLogic.Store.MoveButton | model/logic/tableLogic.ts:233-236 | moving the button for a new hand, as Dealing.MoveButton |
| TableLogic.Store.PostBlinds | model/logic/tableLogic.ts:238-291 | posting the blinds and placing the action, as Dealing.PostBlinds |
| TableLogic.Store.StartHand | model/logic/tableLogic.ts:221-291 | the player count and the start of the hand, as Dealing.StartHand |
| TableLogic.Store.BeginHand | model/logic/tableLogic.ts:226-291 | the round, the hand number, the button and the blinds, as Dealing.BeginHand |
| TableLogic.Store.DealCards | model/logic/tableLogic.ts:211-292 | the method's table and result are those of Dealing.DealCards |
| TableLogic.Store.CallAction | model/store/slices/playerSlice.ts:53-80 | the method's table and result are those of PlayerActions.CallAction |
| TableLogic.Store.TakeCall | model/store/slices/playerSlice.ts:65-78 | the call itself, as PlayerActions.Called |
| TableLogic.Store.RaiseAction | model/store/slices/playerSlice.ts:81-144 | the method's table and result are those of PlayerActions.RaiseAction |
| TableLogic.Store.PlaceRaise | model/store/slices/playerSlice.ts:113-137 | the raise itself, as PlayerActions.Raised |
| TableLogic.Store.AllIn | model/store/slices/playerSlice.ts:113-117 | the short all-in, as PlayerActions.ShortAllIn |
| TableLogic.Store.FullRaise | model/store/slices/playerSlice.ts:118-137 | the full raise with the backward scan for the last actor, as PlayerActions.FullRaise |
| TableLogic.Store.MoveRaise | model/store/slices/playerSlice.ts:118-124 | the chips of a full raise, as PlayerActions.RaiseChips |
| TableLogic.Store.BetAction | model/store/slices/playerSlice.ts:31-52 | the method's table and result are those of PlayerActions.BetAction |
| TableLogic.Store.CheckAction | model/store/slices/playerSlice.ts:145-155 | the method's table and result are those of PlayerActions.CheckAction |
| TableLogic.Store.FoldAction | model/store/slices/playerSlice.ts:156-170 | the method's table and result are those of PlayerActions.FoldAction |

## Left out

- The network, the host and client slices, and the screens are not part of this model. The copy of the network player list that the lone-bettor branch of `gatherBets` writes over the seats is a caller-given row of seats in `PotEngine.GatherBetsAsWritten`; the network records carry no stack and no bet.
- `distributePotToWinners` and hand evaluation are not part of this model. The showdown ends with the pots gathered and the hands shown.
- `setBuyIn` parses text into a number and is not modelled.
- `JSON.parse(JSON.stringify(...))` copies and the object identity they break are not modelled: a player is their seat, and every read sees the current table.
- Seating.CleanUp and Seating.CleanUpRemovesLeavingAndBusted: one consequence of object identity is not captured. In the busted pass of `cleanupTable`, standing up a busted dealer calls `moveDealer`, which installs a JSON copy of the whole table. After that, the `p === player` test of `standUp` no longer matches the busted players still to come, so the source leaves them seated with a stack of 0. The model stands every busted player up.
- PotEngine.GatherBets and PotEngine.KeepWinners: two consequences of object identity are not captured. The eligibility lists of the source hold JSON copies of players taken on earlier streets, and its filter reads their `folded` and `left` flags. So a player who folds on a later street without betting there stays eligible through the older copy. The model reads the current seat. With an empty pot list, `getCurrentPot` installs a new table, and the final write of the stale pots then drops the new pot and its chips. This cannot happen during a hand, which always has a pot.
- Numbers are JavaScript doubles. Chips, blinds and buy-ins are unbounded naturals in the model, so `NaN`, fractions and negative buy-ins are out of scope. Bet and raise amounts are integers and may be negative. A missing or `NaN` amount is `None` and throws "not a valid number".
- A newcomer's bet, which the source leaves `undefined`, is 0 in the model.
- Seating.SitDownBetweenHands: stated for a positive buy-in. The minimum buy-in starts at 0, so `sitDown` accepts a buy-in of 0. Between hands the clean-up then stands that newcomer up as busted, and `sitDown` returns a seat that is empty again. The model computes this as written, and Seating.SitDownZeroBuyInEmptiesSeat states it.
- The dealer position is never `NaN`: `dealerPosition! + 1` on a table whose dealer is unset does not occur, because `MoveButton` moves only a set button. `Dealing.MoveButton` leaves an unset button alone.
- BettingRound.NextAction: the recursion of `nextAction` through `nextRound` and `resetPosition` is bounded by `StepBound`, one full turn of the table per street. When that bound runs out, the model stops with the action where it is. With both the current and the last position set, the source reaches the last position within nine steps even when nobody can act, and then moves to the next street. It recurses without end only when the last position is unset while the current one is set, or when a position is `NaN`.
- BettingRound.MovesOn: the move-on test of `nextAction` is read on the table before the move. Only the position differs, and the test does not depend on it.
- In `dealCards` a blind seat that is empty raises a `TypeError`, possibly after the small blind was posted in place. The model throws `EmptyBlindSeat` from the table as it stands before the blinds, with the round already set to pre-flop and the hand number raised, as the source leaves it. This is reachable: on the first hand, or with the button not moving, the blind positions are those of the last `moveDealer`, and a blind player may have stood up between hands since. Every later `dealCards` then throws "already an active hand". Dealing.PostBlinds models this as written; the model proposes no correction, because the source gives no sign of which seats it means to use instead.
- BettingRound.ResetPosition and BettingRound.ResetPositionWithoutDealer: with no dealer, `resetPosition` computes a NaN position, skips its scan, leaves the last position unset and calls `nextAction`, which steps the NaN position without end unless one player is active. The model clears both positions instead. No dealer during a hand does not arise, because every hand is dealt after `moveDealer` has set one.
- BettingRound.ShowHands and BettingRound.Showdown: as written, `showdown` in `tableSlice.ts` overwrites the players it turned up with the copy it read before gathering, so its own reveal is lost. The model keeps the reveal. The table is the same at both of its callers: on the river `nextRound` has already turned up every unfolded hand, and `nextAction` calls it with one player left, when there is no reveal.
- The "No available seats!" throw inside the seat loop of `sitDown` cannot be reached after the "table full" test, and the model has no branch for it.
- `raiseAction` loops without end when no seat can act behind the raiser. The model's backward scan then returns no last position.
- Dealing.DealCardsPostsBlinds, Dealing.BeginHandPostsBlinds and Dealing.PostBlindsBets: stated only when the small and big blind seats differ. With one seat holding both, the source assigns the bet rather than adding to it: the stack pays both blinds, the bet shows only the big blind, and the small blind's chips leave the table. Dealing.Posted and Dealing.PostBlinds model exactly that, and Dealing.PostBlindsSharedSeat states it.
- PlayerActions.CallActionNeverNoBet and PlayerActions.BetActionNeverAlreadyPlaced prove that the "no bet to call" and "already a bet" errors cannot be reached, so the model keeps them only as errors nobody sees.

## Findings

| source | as written | input that shows it | evidently intended | confidence | as-written member | corrected member |
|---|---|---|---|---|---|---|
| model/logic/tableLogic.ts:182-186 | `cleanupTable` passes the players marked `left` to `standUp(player)`, which only selects players that are not `left`, so nobody is removed; the reset then unfolds them | a player who left during a hand, with chips, followed by `dealCards` | players who left lose their seats before the next hand | not executed | Seating.CleanUpAsWrittenKeepsLeaving | Seating.CleanUpRemovesLeavingAndBusted |
| model/logic/tableLogic.ts:140-152 | `standUp` during a hand compares `getCurrentActor()` with the object it was given, after replacing that seat with a copy, so the test is always false | the player holding the action leaves while two others can still act | the action moves on when the departing player held it | not executed | Seating.StandUpAsWrittenKeepsAction | Seating.StandUpPassesAction |
| model/logic/tableLogic.ts:343-345 | with at most one bettor, `gatherBets` hands the bet back and then writes a copy of `store.players`, the host's network connections, over the table's players | a flop on which every player checks, so nobody has a bet when the street ends | the seats keep their players with the lone bet handed back | not executed | PotEngine.GatherBetsAsWrittenLosesChips | PotEngine.GatherBetsReturnsLoneBet |
| model/store/slices/playerSlice.ts:34-36 | `betAction`, and `checkAction` and `foldAction` at :148 and :159, test `this !== store.getCurrentActor()`; `this` is `undefined` in the slice's arrow functions and the current actor is a player or `null`, so every call throws "out of turn" | the player the action is on checks with no bet out | the player the action is on may bet, check or fold, as `callAction` and `raiseAction` test at :56 and :84 | not executed | PlayerActions.ActionsAsWrittenAlwaysOutOfTurn | PlayerActions.OnTurn |
