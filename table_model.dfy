/** The table's data model: seats, players, pots and the table record, with
    the read-only queries the rest of the engine asks of it. Everything here
    is a value; operations build new tables from old ones. */
module TableModel {

  datatype Option<T> = None | Some(value: T) {
    /** `x ?? default` */
    function GetOr(default: T): T {
      if Some? then value else default
    }
  }

  /** The named errors the engine throws. EmptyBlindSeat stands for the
      TypeError raised when a blind position names an empty seat. */
  datatype Error =
    | NoSeatedPlayers
    | TableFull
    | BuyInTooLow
    | DuplicatePlayer
    | SeatOccupied
    | PlayerNotFound
    | HandAlreadyActive
    | NotEnoughPlayers
    | EmptyBlindSeat
    | OutOfTurn
    | IllegalAction
    | InvalidAmount
    | NoBetToCall
    | BetAlreadyPlaced
    | BetTooLow
    | InsufficientStack
    | RaiseTooSmall

  /** An operation that either succeeds, or throws before changing anything. */
  datatype Result<T> = Success(value: T) | Failure(error: Error)

  /** An operation that may have changed the table before it threw: both
      branches carry the table as the store holds it afterwards. */
  datatype Outcome<T> =
    | Returned(value: T, table: TableState)
    | Threw(error: Error, table: TableState)

  /** The table is created with `Array(10).fill(null)`. */
  const SeatCount: nat := 10

  type SeatIndex = i: nat | i < SeatCount

  datatype Player = Player(
    id: string,
    name: string,
    stackSize: nat,
    bet: nat,
    raise: Option<nat>,
    folded: bool,
    showCards: bool,
    left: bool)

  type Seats = s: seq<Option<Player>> | |s| == SeatCount
    witness [None, None, None, None, None, None, None, None, None, None]

  /** Eligibility is recorded by seat: a seat is the identity of the player
      object the source stores in the list. */
  datatype Pot = Pot(amount: nat, eligible: seq<SeatIndex>)

  datatype Round = PreFlop | Flop | Turn | River

  datatype TableState = TableState(
    buyIn: nat,
    smallBlind: nat,
    bigBlind: nat,
    autoMoveDealer: bool,
    debug: bool,
    seats: Seats,
    dealer: Option<SeatIndex>,
    smallBlindPos: Option<SeatIndex>,
    bigBlindPos: Option<SeatIndex>,
    current: Option<SeatIndex>,
    last: Option<SeatIndex>,
    currentBet: Option<nat>,
    lastRaise: Option<nat>,
    round: Option<Round>,
    pots: seq<Pot>,
    handNumber: nat)

  const NoSeats: Seats := [None, None, None, None, None, None, None, None, None, None]

  /** The table a new store starts with. */
  const InitialTable: TableState :=
    TableState(0, 5, 10, true, false, NoSeats, None, None, None, None, None,
               None, None, None, [], 0)

  /** JavaScript truthiness of an optional count: `undefined` and `0` are
      both falsy, so `!x` is `Val(x) == 0`. */
  function Val(o: Option<nat>): nat {
    if o.Some? then o.value else 0
  }

  // ---------------------------------------------------------------------
  // Seat predicates and the filters built on them

  predicate Occupied(seats: Seats, i: SeatIndex) {
    seats[i].Some?
  }

  predicate NoneOccupied(seats: Seats) {
    forall i: SeatIndex :: seats[i].None?
  }

  predicate NoneEmpty(seats: Seats) {
    forall i: SeatIndex :: seats[i].Some?
  }

  /** `player && !player.folded` */
  predicate IsActive(seats: Seats, i: SeatIndex) {
    seats[i].Some? && !seats[i].value.folded
  }

  /** The filter of `getActingPlayers`: seated, not folded, chips behind,
      and either no bet to face, no raise of one's own, or short of the bet. */
  predicate IsActing(t: TableState, i: SeatIndex) {
    Acting(t.seats, t.currentBet, i)
  }

  /** IsActing, on the only parts of the table it depends on. */
  predicate Acting(seats: Seats, currentBet: Option<nat>, i: SeatIndex) {
    && seats[i].Some?
    && !seats[i].value.folded
    && seats[i].value.stackSize > 0
    && (Val(currentBet) == 0
        || Val(seats[i].value.raise) == 0
        || seats[i].value.bet < Val(currentBet))
  }

  /** The seats from `from` on that satisfy `p`, in seat order
      (the shape of every `players.filter(...)` in the source). */
  function SelectFrom(p: SeatIndex -> bool, from: nat): (r: seq<SeatIndex>)
    requires from <= SeatCount
    decreases SeatCount - from
    ensures forall k :: 0 <= k < |r| ==> from <= r[k] && p(r[k])
    ensures forall i: SeatIndex :: from <= i && p(i) ==> i in r
    ensures forall j, k :: 0 <= j < k < |r| ==> r[j] < r[k]
    ensures |r| <= SeatCount - from
  {
    if from == SeatCount then []
    else
      var rest := SelectFrom(p, from + 1);
      if p(from) then [from] + rest else rest
  }

  function Select(p: SeatIndex -> bool): seq<SeatIndex> {
    SelectFrom(p, 0)
  }

  /** Filters that agree on every seat select the same seats. */
  lemma {:induction false} SelectFromSame(p: SeatIndex -> bool, q: SeatIndex -> bool, from: nat)
    requires from <= SeatCount
    requires forall i: SeatIndex :: p(i) == q(i)
    decreases SeatCount - from
    ensures SelectFrom(p, from) == SelectFrom(q, from)
  {
    if from < SeatCount {
      SelectFromSame(p, q, from + 1);
    }
  }

  /** The seats a table's active players sit in depend only on which seats
      are taken and who has folded. */
  lemma ActiveSeatsSame(t: TableState, u: TableState)
    requires forall i: SeatIndex :: IsActive(t.seats, i) == IsActive(u.seats, i)
    ensures ActiveSeats(t) == ActiveSeats(u)
  {
    SelectFromSame((i: SeatIndex) => IsActive(t.seats, i), (i: SeatIndex) => IsActive(u.seats, i), 0);
  }

  /** `getActivePlayers` */
  function ActiveSeats(t: TableState): seq<SeatIndex> {
    Select((i: SeatIndex) => IsActive(t.seats, i))
  }

  /** `getActingPlayers` */
  function ActingSeats(t: TableState): seq<SeatIndex> {
    Select((i: SeatIndex) => Acting(t.seats, t.currentBet, i))
  }

  /** The same player in the same state of play: seat taken or empty
      alike, same id, same folded and left flags. */
  predicate SameSitter(a: Option<Player>, b: Option<Player>) {
    && a.Some? == b.Some?
    && (a.Some? ==> b.value.id == a.value.id && b.value.folded == a.value.folded && b.value.left == a.value.left)
  }

  predicate SameSitters(a: Seats, b: Seats) {
    forall i: SeatIndex :: SameSitter(a[i], b[i])
  }

  /** The player at an optional position: `getDealer`, `getCurrentActor`,
      `getLastActor`, `getSmallBlindPlayer`, `getBigBlindPlayer`. */
  function PlayerAt(seats: Seats, pos: Option<SeatIndex>): (r: Option<Player>)
    ensures r.Some? <==> pos.Some? && seats[pos.value].Some?
  {
    if pos.None? then None else seats[pos.value]
  }

  /** `getCurrentPot`: the last pot, after appending an empty one when there
      is none. Returns the pots and the index of the current pot. */
  function CurrentPot(pots: seq<Pot>): (r: (seq<Pot>, nat))
    ensures r.1 < |r.0| && r.1 == |r.0| - 1
    ensures pots != [] ==> r.0 == pots
    ensures pots == [] ==> r.0 == [Pot(0, [])]
  {
    if pots == [] then ([Pot(0, [])], 0) else (pots, |pots| - 1)
  }

  /** `getSidePots`: every pot but the current one, or nothing when there is
      at most one pot. */
  function SidePots(pots: seq<Pot>): (r: Option<seq<Pot>>)
    ensures r.None? <==> |pots| <= 1
    ensures r.Some? ==> r.value + [pots[|pots| - 1]] == pots
  {
    if |pots| <= 1 then None else Some(pots[..|pots| - 1])
  }

  // ---------------------------------------------------------------------
  // Chip accounting

  function BetAt(o: Option<Player>): nat {
    if o.Some? then o.value.bet else 0
  }

  function Chips(o: Option<Player>): nat {
    if o.Some? then o.value.stackSize + o.value.bet else 0
  }

  /** The sum of `f` over every seat. */
  function Total(f: Option<Player> -> nat, s: seq<Option<Player>>): nat {
    if s == [] then 0 else f(s[0]) + Total(f, s[1..])
  }

  function PotTotal(pots: seq<Pot>): nat {
    if pots == [] then 0 else pots[0].amount + PotTotal(pots[1..])
  }

  /** Every chip on the table: stacks, pending bets and pots. */
  function TotalChips(t: TableState): nat {
    Total(Chips, t.seats) + PotTotal(t.pots)
  }

  lemma {:induction false} TotalUpdate(f: Option<Player> -> nat, s: seq<Option<Player>>, i: nat, x: Option<Player>)
    requires i < |s|
    ensures Total(f, s[i := x]) + f(s[i]) == Total(f, s) + f(x)
  {
    if i == 0 {
      assert s[i := x][1..] == s[1..];
    } else {
      assert s[i := x][1..] == s[1..][i - 1 := x];
      TotalUpdate(f, s[1..], i - 1, x);
    }
  }

  lemma {:induction false} TotalPointwise(f: Option<Player> -> nat, a: seq<Option<Player>>, b: seq<Option<Player>>)
    requires |a| == |b|
    requires forall i :: 0 <= i < |a| ==> f(a[i]) == f(b[i])
    ensures Total(f, a) == Total(f, b)
  {
    if a != [] {
      TotalPointwise(f, a[1..], b[1..]);
    }
  }

  lemma {:induction false} TotalZero(f: Option<Player> -> nat, s: seq<Option<Player>>)
    requires forall i :: 0 <= i < |s| ==> f(s[i]) == 0
    ensures Total(f, s) == 0
  {
    if s != [] {
      TotalZero(f, s[1..]);
    }
  }

  lemma {:induction false} PotTotalUpdate(pots: seq<Pot>, i: nat, p: Pot)
    requires i < |pots|
    ensures PotTotal(pots[i := p]) + pots[i].amount == PotTotal(pots) + p.amount
  {
    if i == 0 {
      assert pots[i := p][1..] == pots[1..];
    } else {
      assert pots[i := p][1..] == pots[1..][i - 1 := p];
      PotTotalUpdate(pots[1..], i - 1, p);
    }
  }

  lemma {:induction false} PotTotalAppend(pots: seq<Pot>, p: Pot)
    ensures PotTotal(pots + [p]) == PotTotal(pots) + p.amount
  {
    if pots != [] {
      assert (pots + [p])[1..] == pots[1..] + [p];
      PotTotalAppend(pots[1..], p);
    }
  }
}
