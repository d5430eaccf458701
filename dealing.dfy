/** Starting a hand: `dealCards`. */
module Dealing {
  import opened TableModel
  import opened Rotation
  import opened BettingRound
  import opened Seating

  /** A forced blind: the whole stack when it is short of the blind. */
  function Posted(p: Player, blind: nat): (r: Player)
    ensures r == p.(bet := r.bet, stackSize := r.stackSize)
    ensures r.bet == (if blind > p.stackSize then p.stackSize else blind)
    ensures r.stackSize + r.bet == p.stackSize
  {
    if blind > p.stackSize then p.(bet := p.stackSize, stackSize := 0)
    else p.(bet := blind, stackSize := p.stackSize - blind)
  }

  /** Two active players sit in two different seats. */
  lemma TwoSeated(t: TableState) returns (a: SeatIndex, b: SeatIndex)
    requires ActiveCount(t) >= 2
    ensures a != b && t.seats[a].Some? && t.seats[b].Some?
  {
    a := ActiveSeats(t)[0];
    b := ActiveSeats(t)[1];
    assert IsActive(t.seats, a) && IsActive(t.seats, b);
  }

  lemma ActiveOccupied(t: TableState)
    requires ActiveCount(t) > 0
    ensures !NoneOccupied(t.seats)
  {
    assert IsActive(t.seats, ActiveSeats(t)[0]);
  }

  /** From the second hand on, when the table moves the button, it goes to
      the first seated player after the old dealer, and the blinds follow it
      clockwise on seated players; otherwise nothing moves. */
  function MoveButton(h: TableState): (r: TableState)
    requires !NoneOccupied(h.seats)
    ensures r == h.(dealer := r.dealer, smallBlindPos := r.smallBlindPos, bigBlindPos := r.bigBlindPos)
    ensures !(h.handNumber > 1 && h.autoMoveDealer && h.dealer.Some?) ==> r == h
    ensures h.handNumber > 1 && h.autoMoveDealer && h.dealer.Some? ==>
      && r.dealer.Some? && r.smallBlindPos.Some? && r.bigBlindPos.Some?
      && FirstFrom(IsOccupied(h.seats), Advance(h.dealer.value), r.dealer.value)
      && FirstFrom(IsOccupied(h.seats), Advance(r.dealer.value), r.smallBlindPos.value)
      && FirstFrom(IsOccupied(h.seats), Advance(r.smallBlindPos.value), r.bigBlindPos.value)
  {
    if h.handNumber > 1 && h.autoMoveDealer && h.dealer.Some? then
      var n: nat := h.dealer.value + 1;
      assert n % SeatCount == Advance(h.dealer.value);
      MoveDealerPositions(h, n);
      MoveDealer(h, n).value
    else h
  }

  /** The button, when it moves, moves as `moveDealer` from the seat after
      the old dealer places it. */
  lemma MoveButtonIs(h: TableState)
    requires !NoneOccupied(h.seats) && h.handNumber > 1 && h.autoMoveDealer && h.dealer.Some?
    ensures MoveButton(h) == MoveDealer(h, h.dealer.value + 1).value
  {
  }

  /** The seats once both blinds are posted, the big blind on the seats as
      the small blind left them: only the two blind seats change, and
      nobody is seated, unseated or folded. */
  function BlindsPosted(m: TableState, sb: SeatIndex, bb: SeatIndex): (r: Seats)
    requires m.seats[sb].Some? && m.seats[bb].Some?
    ensures r[sb].Some? && r[bb].Some?
    ensures forall i: SeatIndex :: i != sb && i != bb ==> r[i] == m.seats[i]
    ensures SameSitters(m.seats, r)
  {
    var s1 := m.seats[sb := Some(Posted(m.seats[sb].value, m.smallBlind))];
    s1[bb := Some(Posted(s1[bb].value, m.bigBlind))]
  }

  /** The end of `dealCards` once the round has started and the button
      has moved: both blinds posted, the bet opened at the big blind, the
      action on the first seated player after it and the big blind last to
      act. An empty blind seat throws before anything is posted. */
  function PostBlinds(m: TableState): (r: Outcome<()>)
    ensures r.Threw? <==> m.smallBlindPos.None? || m.bigBlindPos.None?
                          || m.seats[m.smallBlindPos.value].None? || m.seats[m.bigBlindPos.value].None?
    ensures r.Threw? ==> r == Threw(EmptyBlindSeat, m)
    ensures r.Returned? ==>
      && r.table == m.(seats := r.table.seats, currentBet := Some(m.bigBlind),
                       current := r.table.current, last := m.bigBlindPos)
      && r.table.current == NextOccupied(r.table.seats, Advance(m.bigBlindPos.value))
      && r.table.current.Some?
      && (forall i: SeatIndex :: i != m.smallBlindPos.value && i != m.bigBlindPos.value ==> r.table.seats[i] == m.seats[i])
      && SameSitters(m.seats, r.table.seats)
      && r.table.seats[m.smallBlindPos.value].Some? && r.table.seats[m.bigBlindPos.value].Some?
  {
    if m.smallBlindPos.None? || m.bigBlindPos.None? then Threw(EmptyBlindSeat, m)
    else
      var sb := m.smallBlindPos.value;
      var bb := m.bigBlindPos.value;
      if m.seats[sb].None? || m.seats[bb].None? then Threw(EmptyBlindSeat, m)
      else
        var s2 := BlindsPosted(m, sb, bb);
        Returned((), m.(seats := s2, currentBet := Some(m.bigBlind),
                        current := NextOccupied(s2, Advance(bb)), last := Some(bb)))
  }

  /** When one seat holds both blinds, the big blind is assigned over the
      small blind rather than added to it: the stack pays both, the bet shows
      only the big blind, and the small blind's chips leave the table. */
  lemma PostBlindsSharedSeat(m: TableState)
    requires m.smallBlindPos.Some? && m.bigBlindPos == m.smallBlindPos
    requires m.seats[m.smallBlindPos.value].Some?
    requires m.smallBlind + m.bigBlind <= m.seats[m.smallBlindPos.value].value.stackSize
    ensures var r := PostBlinds(m); var s := m.smallBlindPos.value; var p := m.seats[s].value;
      && r.Returned? && r.table.seats[s].Some?
      && r.table.seats[s].value.bet == m.bigBlind
      && r.table.seats[s].value.stackSize == p.stackSize - m.smallBlind - m.bigBlind
      && r.table.seats[s].value.stackSize + r.table.seats[s].value.bet + m.smallBlind == p.stackSize
  {
  }

  /** The part of `dealCards` after the clean-up and the player count: the
      pre-flop round with the next hand number, the button moved and the
      blinds posted. */
  function BeginHand(c: TableState): (r: Outcome<()>)
    requires !NoneOccupied(c.seats)
  {
    PostBlinds(MoveButton(c.(round := Some(PreFlop), handNumber := c.handNumber + 1)))
  }

  /** The part of `dealCards` after the clean-up: it throws when fewer
      than two players are left in, and else begins the hand. */
  function StartHand(c: TableState): (r: Outcome<()>)
    ensures ActiveCount(c) < 2 ==> r == Threw(NotEnoughPlayers, c)
    ensures ActiveCount(c) >= 2 ==> !NoneOccupied(c.seats) && r == BeginHand(c)
  {
    if ActiveCount(c) < 2 then Threw(NotEnoughPlayers, c)
    else
      ActiveOccupied(c);
      BeginHand(c)
  }

  /** `dealCards`. It throws before any change when a hand is under way;
      otherwise it cleans up the table and starts the hand. */
  function DealCards(t: TableState): (r: Outcome<()>)
    ensures t.round.Some? ==> r == Threw(HandAlreadyActive, t)
    ensures t.round.None? ==> r == StartHand(CleanUp(t))
  {
    if t.round.Some? then Threw(HandAlreadyActive, t)
    else StartHand(CleanUp(t))
  }

  /** A new hand begins in the pre-flop round with the next hand number,
      the bet open at the big blind, no raise yet, the big blind last to act
      and the action on the first seated player after the big blind; nobody
      sits down or stands up. */
  lemma BeginHandStarts(c: TableState)
    requires !NoneOccupied(c.seats) && BeginHand(c).Returned?
    ensures var r := BeginHand(c).table;
      && r.round == Some(PreFlop) && r.handNumber == c.handNumber + 1
      && r.currentBet == Some(c.bigBlind) && r.lastRaise == c.lastRaise && r.pots == c.pots
      && r.bigBlindPos.Some? && r.last == r.bigBlindPos
      && r.current.Some? && FirstFrom(IsOccupied(r.seats), Advance(r.bigBlindPos.value), r.current.value)
      && SameSitters(c.seats, r.seats)
  {
  }

  lemma DealCardsStartsHand(t: TableState)
    requires DealCards(t).Returned?
    ensures var r := DealCards(t).table;
      && t.round.None?
      && r.round == Some(PreFlop) && r.handNumber == t.handNumber + 1
      && r.currentBet == Some(t.bigBlind) && r.lastRaise.None? && r.pots == [Pot(0, [])]
      && r.bigBlindPos.Some? && r.last == r.bigBlindPos
      && r.current.Some? && FirstFrom(IsOccupied(r.seats), Advance(r.bigBlindPos.value), r.current.value)
  {
    BeginHandStarts(CleanUp(t));
  }

  /** Everyone dealt in is seated for the hand: nobody left over from an
      earlier departure, nobody without chips before the blinds, nobody
      folded. */
  lemma DealCardsDealsEveryoneIn(t: TableState, i: SeatIndex)
    requires DealCards(t).Returned?
    ensures var r := DealCards(t).table;
      r.seats[i].Some? ==> IsActive(r.seats, i) && !r.seats[i].value.left
  {
    CleanUpSeatAt(t, i);
    BeginHandStarts(CleanUp(t));
  }

  /** Each blind player bets the blind, or the whole stack when it is
      short, and no chip is created or lost when neither had a bet out. */
  lemma PostBlindsBets(m: TableState)
    requires PostBlinds(m).Returned? && m.smallBlindPos != m.bigBlindPos
    requires BetAt(m.seats[m.smallBlindPos.value]) == 0 && BetAt(m.seats[m.bigBlindPos.value]) == 0
    ensures var r := PostBlinds(m).table;
      var sb := m.smallBlindPos.value; var bb := m.bigBlindPos.value;
      && r.seats[sb] == Some(Posted(m.seats[sb].value, m.smallBlind))
      && r.seats[bb] == Some(Posted(m.seats[bb].value, m.bigBlind))
      && TotalChips(r) == TotalChips(m)
  {
    var sb := m.smallBlindPos.value;
    var bb := m.bigBlindPos.value;
    var s1 := m.seats[sb := Some(Posted(m.seats[sb].value, m.smallBlind))];
    var s2 := s1[bb := Some(Posted(s1[bb].value, m.bigBlind))];
    assert PostBlinds(m).table.seats == s2;
    TotalUpdate(Chips, m.seats, sb, s1[sb]);
    TotalUpdate(Chips, s1, bb, s2[bb]);
  }

  lemma BeginHandPostsBlinds(c: TableState)
    requires !NoneOccupied(c.seats) && BeginHand(c).Returned?
    requires BeginHand(c).table.smallBlindPos != BeginHand(c).table.bigBlindPos
    requires BetAt(c.seats[BeginHand(c).table.smallBlindPos.value]) == 0
    requires BetAt(c.seats[BeginHand(c).table.bigBlindPos.value]) == 0
    ensures var r := BeginHand(c).table;
      var sb := r.smallBlindPos.value; var bb := r.bigBlindPos.value;
      && c.seats[sb].Some? && c.seats[bb].Some?
      && r.seats[sb] == Some(Posted(c.seats[sb].value, c.smallBlind))
      && r.seats[bb] == Some(Posted(c.seats[bb].value, c.bigBlind))
      && TotalChips(r) == TotalChips(c)
  {
    var m := MoveButton(c.(round := Some(PreFlop), handNumber := c.handNumber + 1));
    assert m.seats == c.seats && m.smallBlind == c.smallBlind && m.bigBlind == c.bigBlind;
    assert BeginHand(c) == PostBlinds(m);
    PostBlindsBets(m);
  }

  /** The blinds are taken from the stacks left after the clean-up: each
      blind player bets the blind, or the whole stack when it is short, and
      no chip is created or lost. */
  lemma DealCardsPostsBlinds(t: TableState)
    requires DealCards(t).Returned?
    requires DealCards(t).table.smallBlindPos != DealCards(t).table.bigBlindPos
    ensures var c := CleanUp(t); var r := DealCards(t).table;
      var sb := r.smallBlindPos.value; var bb := r.bigBlindPos.value;
      && c.seats[sb].Some? && c.seats[bb].Some?
      && r.seats[sb].value.bet == (if t.smallBlind > c.seats[sb].value.stackSize then c.seats[sb].value.stackSize else t.smallBlind)
      && r.seats[bb].value.bet == (if t.bigBlind > c.seats[bb].value.stackSize then c.seats[bb].value.stackSize else t.bigBlind)
      && TotalChips(r) == TotalChips(c)
  {
    var c := CleanUp(t);
    var r := BeginHand(c).table;
    CleanUpSeatAt(t, r.smallBlindPos.value);
    CleanUpSeatAt(t, r.bigBlindPos.value);
    BeginHandPostsBlinds(c);
  }

  /** With two players seated, moving the button takes it to another seated
      player and the blinds follow it clockwise on seated players, so the
      blinds can always be posted. */
  lemma BeginHandMovesButton(c: TableState, a: SeatIndex, b: SeatIndex)
    requires a != b && c.seats[a].Some? && c.seats[b].Some?
    requires c.handNumber >= 1 && c.autoMoveDealer && c.dealer.Some?
    ensures var r := BeginHand(c);
      && r.Returned?
      && r.table.dealer.Some? && r.table.dealer != c.dealer
      && FirstFrom(IsOccupied(c.seats), Advance(c.dealer.value), r.table.dealer.value)
      && FirstFrom(IsOccupied(c.seats), Advance(r.table.dealer.value), r.table.smallBlindPos.value)
      && FirstFrom(IsOccupied(c.seats), Advance(r.table.smallBlindPos.value), r.table.bigBlindPos.value)
  {
    var h := c.(round := Some(PreFlop), handNumber := c.handNumber + 1);
    var m := MoveButton(h);
    NextAfterIsOther(IsOccupied(h.seats), h.dealer.value, m.dealer.value, if a != h.dealer.value then a else b);
  }

  /** From the second hand on, when the table moves the button, it moves to
      another seated player, and the blinds follow it clockwise on seated
      players; the hand then always gets going. */
  lemma DealCardsMovesButton(t: TableState)
    requires t.round.None? && ActiveCount(CleanUp(t)) >= 2
    requires t.handNumber >= 1 && t.autoMoveDealer && CleanUp(t).dealer.Some?
    ensures var c := CleanUp(t); var r := DealCards(t);
      && r.Returned?
      && r.table.dealer.Some? && r.table.dealer != c.dealer
      && FirstFrom(IsOccupied(c.seats), Advance(c.dealer.value), r.table.dealer.value)
      && FirstFrom(IsOccupied(c.seats), Advance(r.table.dealer.value), r.table.smallBlindPos.value)
      && FirstFrom(IsOccupied(c.seats), Advance(r.table.smallBlindPos.value), r.table.bigBlindPos.value)
  {
    var a, b := TwoSeated(CleanUp(t));
    BeginHandMovesButton(CleanUp(t), a, b);
  }
}
