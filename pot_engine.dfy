/** `gatherBets`: moving the bets of a betting round into the pots. */
module PotEngine {
  import opened TableModel

  function StackAt(o: Option<Player>): nat {
    if o.Some? then o.value.stackSize else 0
  }

  /** `player && player.bet && player.stackSize === 0` */
  predicate AllIn(seats: Seats, s: SeatIndex) {
    seats[s].Some? && seats[s].value.bet != 0 && seats[s].value.stackSize == 0
  }

  predicate Increasing(xs: seq<SeatIndex>) {
    forall j :: 0 <= j < |xs| ==> forall k :: j < k < |xs| ==> xs[j] < xs[k]
  }

  /** A seat with its player's bet set aside. */
  function Unbet(o: Option<Player>): Option<Player> {
    if o.Some? then Some(o.value.(bet := 0)) else None
  }

  /** Two seat rows that differ at most in the players' bets. */
  predicate OnlyBetsChange(a: Seats, b: Seats) {
    forall i: SeatIndex :: Unbet(b[i]) == Unbet(a[i])
  }

  /** `getBettingPlayers`: the seats holding a positive bet. */
  function Bettors(seats: Seats): (r: seq<SeatIndex>)
    ensures Increasing(r)
    ensures forall i: SeatIndex :: i in r <==> BetAt(seats[i]) > 0
  {
    Select((i: SeatIndex) => BetAt(seats[i]) > 0)
  }

  /** `bettingPlayers.filter(player && player.bet && player.stackSize === 0)` */
  function AllInAmong(seats: Seats, list: seq<SeatIndex>): (r: seq<SeatIndex>)
    ensures forall s :: s in r <==> s in list && AllIn(seats, s)
  {
    if list == [] then []
    else (if AllIn(seats, list[0]) then [list[0]] else []) + AllInAmong(seats, list[1..])
  }

  /** The set the `while (allInPlayers.length > 0)` loop shrinks. */
  function AllInSet(seats: Seats, bettors: seq<SeatIndex>): set<SeatIndex> {
    set s | s in bettors && AllIn(seats, s)
  }

  /** `reduce((prev, eval) => eval < prev ? eval : prev)` over the bets of
      `list`, starting from `acc`. */
  function LowestFrom(seats: Seats, acc: nat, list: seq<SeatIndex>): (r: nat)
    ensures r <= acc
    ensures forall s :: s in list ==> r <= BetAt(seats[s])
    ensures r == acc || exists s :: s in list && r == BetAt(seats[s])
  {
    if list == [] then acc
    else
      var b := BetAt(seats[list[0]]);
      LowestFrom(seats, if b < acc then b else acc, list[1..])
  }

  /** The lowest bet among the all-in seats. */
  function LowestBet(seats: Seats, list: seq<SeatIndex>): (r: nat)
    requires list != []
    ensures forall s :: s in list ==> r <= BetAt(seats[s])
    ensures exists s :: s in list && r == BetAt(seats[s])
  {
    LowestFrom(seats, BetAt(seats[list[0]]), list[1..])
  }

  /** `if (!pot.eligiblePlayers.includes(player)) pot.eligiblePlayers.push(player)` */
  function AddEligible(pot: Pot, s: SeatIndex): (r: Pot)
    ensures r.amount == pot.amount
    ensures s in r.eligible
    ensures forall x :: x in r.eligible <==> x in pot.eligible || x == s
  {
    if s in pot.eligible then pot else pot.(eligible := pot.eligible + [s])
  }

  /** What one pass leaves of a bet `b` when the lowest all-in bet is `low`:
      a bet of at least `low` gives up `low`, a smaller one gives up all. */
  function Cut(b: nat, low: nat): nat {
    if b >= low then b - low else 0
  }

  /** One pass of the all-in loop: the `bettingPlayers.forEach` at
      model/logic/tableLogic.ts:366-383, from the `k`-th bettor on. Every
      chip taken from a bet goes into the single `pot`. */
  function PassFrom(seats: Seats, pot: Pot, bettors: seq<SeatIndex>, k: nat, low: nat): (r: (Seats, Pot))
    requires k <= |bettors| && Increasing(bettors)
    decreases |bettors| - k
    ensures OnlyBetsChange(seats, r.0)
    ensures Total(Chips, r.0) + r.1.amount == Total(Chips, seats) + pot.amount
  {
    if k == |bettors| then (seats, pot)
    else
      var s := bettors[k];
      var seats' := seats[s := CutSeat(seats[s], low)];
      TotalUpdate(Chips, seats, s, seats'[s]);
      PassFrom(seats', CutPot(pot, seats[s], s, low), bettors, k + 1, low)
  }

  /** The seat after one bettor's turn in a pass. */
  function CutSeat(o: Option<Player>, low: nat): Option<Player> {
    if BetAt(o) == 0 then o else Some(o.value.(bet := Cut(o.value.bet, low)))
  }

  /** The pot after one bettor's turn in a pass. */
  function CutPot(pot: Pot, o: Option<Player>, s: SeatIndex, low: nat): Pot {
    if BetAt(o) == 0 then pot else AddEligible(pot.(amount := pot.amount + (o.value.bet - Cut(o.value.bet, low))), s)
  }

  /** A pass leaves every seat that is not among the bettors from the
      `k`-th on as it was. */
  lemma {:induction false} PassFromOthers(seats: Seats, pot: Pot, bettors: seq<SeatIndex>, k: nat, low: nat, i: SeatIndex)
    requires k <= |bettors| && Increasing(bettors) && i !in bettors[k..]
    decreases |bettors| - k
    ensures PassFrom(seats, pot, bettors, k, low).0[i] == seats[i]
  {
    if k < |bettors| {
      var s := bettors[k];
      assert bettors[k..] == [s] + bettors[k + 1..];
      PassFromOthers(seats[s := CutSeat(seats[s], low)], CutPot(pot, seats[s], s, low), bettors, k + 1, low, i);
    }
  }

  /** A pass cuts the bet of every bettor from the `k`-th on. */
  lemma {:induction false} PassFromSeat(seats: Seats, pot: Pot, bettors: seq<SeatIndex>, k: nat, low: nat, i: SeatIndex)
    requires k <= |bettors| && Increasing(bettors) && i in bettors[k..]
    decreases |bettors| - k
    ensures BetAt(PassFrom(seats, pot, bettors, k, low).0[i]) == Cut(BetAt(seats[i]), low)
  {
    var s := bettors[k];
    assert bettors[k..] == [s] + bettors[k + 1..];
    var seats' := seats[s := CutSeat(seats[s], low)];
    var pot' := CutPot(pot, seats[s], s, low);
    if i == s {
      assert i !in bettors[k + 1..];
      PassFromOthers(seats', pot', bettors, k + 1, low, i);
    } else {
      PassFromSeat(seats', pot', bettors, k + 1, low, i);
    }
  }

  /** The same for every seat at once, from the first bettor on. */
  lemma PassFromBets(seats: Seats, pot: Pot, bettors: seq<SeatIndex>, low: nat)
    requires Increasing(bettors)
    ensures var r := PassFrom(seats, pot, bettors, 0, low).0;
      && (forall i: SeatIndex :: i in bettors ==> BetAt(r[i]) == Cut(BetAt(seats[i]), low))
      && (forall i: SeatIndex :: i !in bettors ==> r[i] == seats[i])
  {
    assert bettors[0..] == bettors;
    var r := PassFrom(seats, pot, bettors, 0, low).0;
    forall i: SeatIndex | i in bettors ensures BetAt(r[i]) == Cut(BetAt(seats[i]), low) {
      PassFromSeat(seats, pot, bettors, 0, low, i);
    }
    forall i: SeatIndex | i !in bettors ensures r[i] == seats[i] {
      PassFromOthers(seats, pot, bettors, 0, low, i);
    }
  }

  /** The passes of `while (allInPlayers.length > 0)`. Each pass appends one
      empty pot, but every chip is added to pot `p`, the pot that was current
      before the loop: the source captures `currentPot` once, so the pots it
      appends stay empty. */
  function Passes(seats: Seats, pots: seq<Pot>, p: nat, bettors: seq<SeatIndex>): (r: (Seats, seq<Pot>))
    requires p < |pots| && Increasing(bettors)
    decreases AllInSet(seats, bettors)
    ensures |r.1| >= |pots|
  {
    if AllInAmong(seats, bettors) == [] then (seats, pots)
    else
      var step := Pass(seats, pots, p, bettors);
      Passes(step.0, step.1, p, bettors)
  }

  /** The passes change only bets, and only the bettors' seats. */
  lemma {:induction false} PassesFrame(seats: Seats, pots: seq<Pot>, p: nat, bettors: seq<SeatIndex>)
    requires p < |pots| && Increasing(bettors)
    decreases AllInSet(seats, bettors)
    ensures var r := Passes(seats, pots, p, bettors).0;
      && OnlyBetsChange(seats, r)
      && (forall i: SeatIndex :: i !in bettors ==> r[i] == seats[i])
  {
    if AllInAmong(seats, bettors) != [] {
      var step := Pass(seats, pots, p, bettors);
      PassesFrame(step.0, step.1, p, bettors);
    }
  }

  /** The passes lose no chip, and leave no all-in bettor with a bet. */
  lemma {:induction false} PassesConserve(seats: Seats, pots: seq<Pot>, p: nat, bettors: seq<SeatIndex>)
    requires p < |pots| && Increasing(bettors)
    decreases AllInSet(seats, bettors)
    ensures var r := Passes(seats, pots, p, bettors);
      && Total(Chips, r.0) + PotTotal(r.1) == Total(Chips, seats) + PotTotal(pots)
      && (forall s :: s in bettors ==> !AllIn(r.0, s))
  {
    if AllInAmong(seats, bettors) != [] {
      var step := Pass(seats, pots, p, bettors);
      PassesConserve(step.0, step.1, p, bettors);
    }
  }

  /** The passes leave every pot but `p` as it was, and the pots they append
      empty. */
  lemma {:induction false} PassesPots(seats: Seats, pots: seq<Pot>, p: nat, bettors: seq<SeatIndex>)
    requires p < |pots| && Increasing(bettors)
    decreases AllInSet(seats, bettors)
    ensures var r := Passes(seats, pots, p, bettors).1;
      && (forall j :: 0 <= j < |pots| && j != p ==> r[j] == pots[j])
      && (forall j :: |pots| <= j < |r| ==> r[j] == Pot(0, []))
  {
    if AllInAmong(seats, bettors) != [] {
      var step := Pass(seats, pots, p, bettors);
      PassesPots(step.0, step.1, p, bettors);
      var r := Passes(step.0, step.1, p, bettors).1;
      assert Passes(seats, pots, p, bettors).1 == r;
      forall j | |pots| <= j < |r| ensures r[j] == Pot(0, []) {
        if j == |pots| {
          assert step.1[j] == Pot(0, []);
        }
      }
    }
  }

  /** One pass of the loop body: take the lowest all-in bet from every
      bettor into pot `p`, then append an empty pot. */
  function Pass(seats: Seats, pots: seq<Pot>, p: nat, bettors: seq<SeatIndex>): (r: (Seats, seq<Pot>))
    requires p < |pots| && Increasing(bettors) && AllInAmong(seats, bettors) != []
    ensures OnlyBetsChange(seats, r.0)
    ensures AllInSet(r.0, bettors) < AllInSet(seats, bettors)
    ensures |r.1| == |pots| + 1
    ensures Total(Chips, r.0) + PotTotal(r.1) == Total(Chips, seats) + PotTotal(pots)
    ensures forall j :: 0 <= j < |pots| && j != p ==> r.1[j] == pots[j]
    ensures r.1[|pots|] == Pot(0, [])
    ensures forall i: SeatIndex :: i !in bettors ==> r.0[i] == seats[i]
  {
    var low := LowestBet(seats, AllInAmong(seats, bettors));
    var pass := PassFrom(seats, pots[p], bettors, 0, low);
    PassShrinks(seats, pots[p], bettors, low);
    PassFromBets(seats, pots[p], bettors, low);
    PassPots(pots, p, pass.1);
    (pass.0, pots[p := pass.1] + [Pot(0, [])])
  }

  /** The pots after a pass: pot `p` replaced, one empty pot appended. */
  lemma PassPots(pots: seq<Pot>, p: nat, q: Pot)
    requires p < |pots|
    ensures var pots' := pots[p := q] + [Pot(0, [])];
      && |pots'| == |pots| + 1
      && PotTotal(pots') + pots[p].amount == PotTotal(pots) + q.amount
      && (forall j :: 0 <= j < |pots| && j != p ==> pots'[j] == pots[j])
      && pots'[|pots|] == Pot(0, [])
  {
    PotTotalUpdate(pots, p, q);
    PotTotalAppend(pots[p := q], Pot(0, []));
  }

  /** A pass zeroes the bet of every all-in seat holding the lowest all-in
      bet. */
  lemma PassZeroesLowest(seats: Seats, pot: Pot, bettors: seq<SeatIndex>, low: nat)
    requires Increasing(bettors) && AllInAmong(seats, bettors) != []
    requires low == LowestBet(seats, AllInAmong(seats, bettors))
    ensures var after := PassFrom(seats, pot, bettors, 0, low).0;
      forall s :: s in bettors && AllIn(seats, s) && BetAt(seats[s]) == low ==> BetAt(after[s]) == 0
  {
    PassFromBets(seats, pot, bettors, low);
  }

  /** A pass creates no new all-in seat and empties one, so the set of
      all-in seats with a positive bet strictly shrinks and the loop ends. */
  lemma PassShrinks(seats: Seats, pot: Pot, bettors: seq<SeatIndex>, low: nat)
    requires Increasing(bettors) && AllInAmong(seats, bettors) != []
    requires low == LowestBet(seats, AllInAmong(seats, bettors))
    ensures AllInSet(PassFrom(seats, pot, bettors, 0, low).0, bettors) < AllInSet(seats, bettors)
  {
    var after := PassFrom(seats, pot, bettors, 0, low).0;
    var allIn := AllInAmong(seats, bettors);
    PassFromBets(seats, pot, bettors, low);
    var m :| m in allIn && low == BetAt(seats[m]);
    var A := AllInSet(seats, bettors);
    var B := AllInSet(after, bettors);
    assert m in A && m !in B;
    forall s | s in B ensures s in A {
      assert Unbet(after[s]) == Unbet(seats[s]);
    }
  }

  /** The sweep after the loop: every remaining bet goes into pot `p`
      (model/logic/tableLogic.ts:394-401), from the `k`-th seat of `list` on.
      Each bettor's turn is a pass turn whose cut is the whole bet. */
  function SweepFrom(seats: Seats, pot: Pot, list: seq<SeatIndex>, k: nat): (r: (Seats, Pot))
    requires k <= |list| && Increasing(list)
    decreases |list| - k
    ensures OnlyBetsChange(seats, r.0)
    ensures Total(Chips, r.0) + r.1.amount == Total(Chips, seats) + pot.amount
    ensures forall i: SeatIndex :: BetAt(r.0[i]) == (if i in list[k..] then 0 else BetAt(seats[i]))
  {
    if k == |list| then (seats, pot)
    else
      var s := list[k];
      assert list[k..] == [s] + list[k + 1..];
      assert s !in list[k + 1..];
      var seats' := seats[s := CutSeat(seats[s], BetAt(seats[s]))];
      TotalUpdate(Chips, seats, s, seats'[s]);
      SweepFrom(seats', CutPot(pot, seats[s], s, BetAt(seats[s])), list, k + 1)
  }

  /** A seat whose bet has gone back to the player's stack. */
  function Refunded(o: Option<Player>): (r: Option<Player>)
    ensures Chips(r) == Chips(o) && BetAt(r) == 0
    ensures StackAt(r) == StackAt(o) + BetAt(o)
  {
    if BetAt(o) != 0 then Some(o.value.(stackSize := o.value.stackSize + o.value.bet, bet := 0)) else o
  }

  /** With at most one bettor, the bet goes back to its owner's stack
      (model/logic/tableLogic.ts:335-346), from the `k`-th seat of `list` on. */
  function ReturnBets(seats: Seats, list: seq<SeatIndex>, k: nat): (r: Seats)
    requires k <= |list| && Increasing(list)
    decreases |list| - k
    ensures forall i: SeatIndex :: r[i] == if i in list[k..] then Refunded(seats[i]) else seats[i]
  {
    if k == |list| then seats
    else
      var s := list[k];
      assert forall j :: k < j < |list| ==> list[j] != s;
      assert list[k..] == [s] + list[k + 1..];
      ReturnBets(seats[s := Refunded(seats[s])], list, k + 1)
  }

  /** `!player?.folded && !player?.left` */
  predicate MayWin(seats: Seats, s: SeatIndex) {
    seats[s].None? || (!seats[s].value.folded && !seats[s].value.left)
  }

  function KeepWinners(seats: Seats, list: seq<SeatIndex>): (r: seq<SeatIndex>)
    ensures forall s :: s in r <==> s in list && MayWin(seats, s)
  {
    if list == [] then []
    else (if MayWin(seats, list[0]) then [list[0]] else []) + KeepWinners(seats, list[1..])
  }

  /** Drop folded and left players from every pot's eligibility list. */
  function FilterPots(seats: Seats, pots: seq<Pot>): (r: seq<Pot>)
    ensures |r| == |pots|
    ensures forall j :: 0 <= j < |r| ==> r[j] == pots[j].(eligible := KeepWinners(seats, pots[j].eligible))
    ensures forall j :: 0 <= j < |r| ==> r[j].amount == pots[j].amount
    ensures PotTotal(r) == PotTotal(pots)
  {
    if pots == [] then []
    else
      var rest := FilterPots(seats, pots[1..]);
      var r := [pots[0].(eligible := KeepWinners(seats, pots[0].eligible))] + rest;
      assert r[1..] == rest;
      r
  }

  /** The seats and pots after `gatherBets`. */
  function Gather(seats: Seats, pots: seq<Pot>): (Seats, seq<Pot>) {
    var bettors := Bettors(seats);
    if |bettors| <= 1 then
      (ReturnBets(seats, bettors, 0), pots)
    else
      var cp := CurrentPot(pots);
      var passes := Passes(seats, cp.0, cp.1, bettors);
      var sweep := SweepFrom(passes.0, passes.1[cp.1], Bettors(passes.0), 0);
      (sweep.0, FilterPots(sweep.0, passes.1[cp.1 := sweep.1]))
  }

  /** `gatherBets`: only the seats and the pots change. */
  function GatherBets(t: TableState): (r: TableState)
    ensures r == t.(seats := r.seats, pots := r.pots)
  {
    var g := Gather(t.seats, t.pots);
    t.(seats := g.0, pots := g.1)
  }

  // ---------------------------------------------------------------------
  // What gatherBets promises

  lemma {:induction false} TotalSplit(s: seq<Option<Player>>)
    ensures Total(Chips, s) == Total(StackAt, s) + Total(BetAt, s)
  {
    if s != [] {
      TotalSplit(s[1..]);
    }
  }

  lemma CurrentPotTotal(pots: seq<Pot>)
    ensures PotTotal(CurrentPot(pots).0) == PotTotal(pots)
  {
    if pots == [] {
      assert PotTotal([Pot(0, [])]) == 0 + PotTotal([]);
    }
  }

  lemma GatherConserves(seats: Seats, pots: seq<Pot>)
    ensures var g := Gather(seats, pots);
      Total(Chips, g.0) + PotTotal(g.1) == Total(Chips, seats) + PotTotal(pots)
  {
    var bettors := Bettors(seats);
    var g := Gather(seats, pots);
    if |bettors| <= 1 {
      assert bettors[0..] == bettors;
      TotalPointwise(Chips, g.0, seats);
    } else {
      var cp := CurrentPot(pots);
      CurrentPotTotal(pots);
      PassesConserve(seats, cp.0, cp.1, bettors);
      var passes := Passes(seats, cp.0, cp.1, bettors);
      var sweep := SweepFrom(passes.0, passes.1[cp.1], Bettors(passes.0), 0);
      PotTotalUpdate(passes.1, cp.1, sweep.1);
    }
  }

  /** gatherBets neither creates nor destroys chips: stacks, bets and pots
      together hold as many chips afterwards as before. */
  lemma GatherBetsConserves(t: TableState)
    ensures TotalChips(GatherBets(t)) == TotalChips(t)
  {
    GatherConserves(t.seats, t.pots);
  }

  lemma GatherClearsBets(seats: Seats, pots: seq<Pot>)
    ensures forall i: SeatIndex :: BetAt(Gather(seats, pots).0[i]) == 0
  {
    var bettors := Bettors(seats);
    if |bettors| <= 1 {
      assert bettors[0..] == bettors;
    } else {
      var cp := CurrentPot(pots);
      var passes := Passes(seats, cp.0, cp.1, bettors);
      var list := Bettors(passes.0);
      assert list[0..] == list;
    }
  }

  /** After gatherBets no seat holds a bet. */
  lemma GatherBetsClearsBets(t: TableState)
    ensures forall i: SeatIndex :: BetAt(GatherBets(t).seats[i]) == 0
  {
    GatherClearsBets(t.seats, t.pots);
  }

  lemma GatherFrame(seats: Seats, pots: seq<Pot>)
    requires |Bettors(seats)| > 1
    ensures OnlyBetsChange(seats, Gather(seats, pots).0)
  {
    var cp := CurrentPot(pots);
    PassesFrame(seats, cp.0, cp.1, Bettors(seats));
  }

  lemma StacksKept(a: Seats, b: Seats)
    requires OnlyBetsChange(a, b)
    ensures Total(StackAt, b) == Total(StackAt, a)
  {
    forall i | 0 <= i < SeatCount ensures StackAt(b[i]) == StackAt(a[i]) {
      assert Unbet(b[i]) == Unbet(a[i]);
    }
    TotalPointwise(StackAt, b, a);
  }

  lemma GatherMovesBets(seats: Seats, pots: seq<Pot>)
    requires |Bettors(seats)| > 1
    ensures PotTotal(Gather(seats, pots).1) == PotTotal(pots) + Total(BetAt, seats)
  {
    var g := Gather(seats, pots);
    GatherFrame(seats, pots);
    StacksKept(seats, g.0);
    GatherConserves(seats, pots);
    GatherClearsBets(seats, pots);
    TotalZero(BetAt, g.0);
    TotalSplit(seats);
    TotalSplit(g.0);
  }

  /** With two or more bettors only bets change on the seats, and every chip
      that was bet ends up in the pots. */
  lemma GatherBetsMovesBetsIntoPots(t: TableState)
    requires |Bettors(t.seats)| > 1
    ensures OnlyBetsChange(t.seats, GatherBets(t).seats)
    ensures PotTotal(GatherBets(t).pots) == PotTotal(t.pots) + Total(BetAt, t.seats)
  {
    GatherFrame(t.seats, t.pots);
    GatherMovesBets(t.seats, t.pots);
  }

  lemma GatherKeepsSitters(seats: Seats, pots: seq<Pot>)
    ensures SameSitters(seats, Gather(seats, pots).0)
  {
    var bettors := Bettors(seats);
    var g := Gather(seats, pots).0;
    if |bettors| <= 1 {
      assert bettors[0..] == bettors;
    } else {
      GatherFrame(seats, pots);
      forall i: SeatIndex ensures SameSitter(seats[i], g[i]) {
        assert Unbet(g[i]) == Unbet(seats[i]);
      }
    }
  }

  /** gatherBets moves chips only: every seat keeps its player, and every
      player their id and their folded and left flags. */
  lemma GatherBetsKeepsSitters(t: TableState)
    ensures SameSitters(t.seats, GatherBets(t).seats)
  {
    GatherKeepsSitters(t.seats, t.pots);
  }

  /** With at most one bettor the bet is handed back: the stack grows by the
      bet, the bet becomes zero, and the pots are untouched. */
  lemma GatherBetsReturnsLoneBet(t: TableState)
    requires |Bettors(t.seats)| <= 1
    ensures GatherBets(t).pots == t.pots
    ensures forall i: SeatIndex ::
              && StackAt(GatherBets(t).seats[i]) == StackAt(t.seats[i]) + BetAt(t.seats[i])
              && BetAt(GatherBets(t).seats[i]) == 0
  {
    var bettors := Bettors(t.seats);
    assert bettors[0..] == bettors;
  }

  /** Pot `j` after gatherBets, when `j` is not the pot that was current. */
  lemma GatherPotAt(seats: Seats, pots: seq<Pot>, j: nat)
    requires |Bettors(seats)| > 1
    requires j < |Gather(seats, pots).1| && j != CurrentPot(pots).1
    ensures var cp := CurrentPot(pots);
      Gather(seats, pots).1[j].amount == if j < |cp.0| then cp.0[j].amount else 0
  {
    var bettors := Bettors(seats);
    var cp := CurrentPot(pots);
    PassesPots(seats, cp.0, cp.1, bettors);
    var passes := Passes(seats, cp.0, cp.1, bettors);
    var sweep := SweepFrom(passes.0, passes.1[cp.1], Bettors(passes.0), 0);
    var updated := passes.1[cp.1 := sweep.1];
    assert updated[j] == passes.1[j];
    assert Gather(seats, pots).1[j].amount == updated[j].amount;
  }

  lemma GatherSinglePot(seats: Seats, pots: seq<Pot>)
    requires |Bettors(seats)| > 1
    ensures var cp := CurrentPot(pots);
      var r := Gather(seats, pots).1;
      && |r| >= |cp.0|
      && (forall j :: 0 <= j < |cp.0| && j != cp.1 ==> r[j].amount == cp.0[j].amount)
      && (forall j :: |cp.0| <= j < |r| ==> r[j].amount == 0)
  {
    var cp := CurrentPot(pots);
    var r := Gather(seats, pots).1;
    forall j | 0 <= j < |r| && j != cp.1
      ensures r[j].amount == if j < |cp.0| then cp.0[j].amount else 0
    {
      GatherPotAt(seats, pots, j);
    }
  }

  /** With two or more bettors all chips land in the pot that was current
      when gatherBets began: every other pot keeps its amount, and the pots
      appended by the all-in passes are empty. */
  lemma GatherBetsSinglePot(t: TableState)
    requires |Bettors(t.seats)| > 1
    ensures var cp := CurrentPot(t.pots);
      var r := GatherBets(t).pots;
      && |r| >= |cp.0|
      && (forall j :: 0 <= j < |cp.0| && j != cp.1 ==> r[j].amount == cp.0[j].amount)
      && (forall j :: |cp.0| <= j < |r| ==> r[j].amount == 0)
  {
    GatherSinglePot(t.seats, t.pots);
  }

  /** After gatherBets with two or more bettors, no pot lists a folded or
      departed player as eligible. */
  lemma GatherBetsEligibility(t: TableState)
    requires |Bettors(t.seats)| > 1
    ensures var r := GatherBets(t);
      forall j, s :: 0 <= j < |r.pots| && s in r.pots[j].eligible ==> MayWin(r.seats, s)
  {
  }

  // ---------------------------------------------------------------------
  // The lone-bettor branch as written

  /** `gatherBets` as written: with at most one bettor, the bet is handed
      back and then every seat is overwritten with a copy of the store's
      network player list, given here as `network` read as a row of seats.
      With more bettors it is GatherBets. */
  function GatherBetsAsWritten(t: TableState, network: Seats): (r: TableState)
    ensures |Bettors(t.seats)| > 1 ==> r == GatherBets(t)
    ensures |Bettors(t.seats)| <= 1 ==> r == t.(seats := network)
  {
    if |Bettors(t.seats)| <= 1 then t.(seats := network) else GatherBets(t)
  }

  /** As written, a street on which at most one player bets ends with the
      seated players' chips gone: the network records that replace them
      carry no stack and no bet, so only the pots are left. */
  lemma GatherBetsAsWrittenLosesChips(t: TableState, network: Seats)
    requires |Bettors(t.seats)| <= 1
    requires forall i: SeatIndex :: Chips(network[i]) == 0
    ensures TotalChips(GatherBetsAsWritten(t, network)) == PotTotal(t.pots)
    ensures Total(Chips, t.seats) > 0 ==> TotalChips(GatherBetsAsWritten(t, network)) < TotalChips(t)
  {
    forall i | 0 <= i < |network|
      ensures Chips(network[i]) == 0
    {
      var k: SeatIndex := i;
      assert Chips(network[k]) == 0;
    }
    TotalZero(Chips, network);
  }
}
