/** Circular seat scans and the dealer/blind rotation built on them. */
module Rotation {
  import opened TableModel

  /** The seat `d` places clockwise of `from`. */
  function Step(from: SeatIndex, d: nat): SeatIndex {
    (from + d) % SeatCount
  }

  /** The seat `d` places counter-clockwise of `from`. */
  function Back(from: SeatIndex, d: nat): SeatIndex
    requires d <= SeatCount
  {
    (from + SeatCount - d) % SeatCount
  }

  /** How many places clockwise `to` lies from `from`. */
  function Dist(from: SeatIndex, to: SeatIndex): (r: nat)
    ensures r < SeatCount
  {
    (to + SeatCount - from) % SeatCount
  }

  /** How many places counter-clockwise `to` lies from `from`. */
  function BackDist(from: SeatIndex, to: SeatIndex): (r: nat)
    ensures r < SeatCount
  {
    (from + SeatCount - to) % SeatCount
  }

  /** The source's one-step wrap, `x++; if (x >= length) x -= length * floor(x / length)`. */
  function Advance(x: SeatIndex): (r: SeatIndex)
    ensures r == Step(x, 1)
  {
    if x + 1 >= SeatCount then 0 else x + 1
  }

  /** The source's one-step back wrap, `x--; if (x === -1) x = length - 1`. */
  function Retreat(x: SeatIndex): (r: SeatIndex)
    ensures r == Back(x, 1)
  {
    if x == 0 then SeatCount - 1 else x - 1
  }

  lemma StepDist(from: SeatIndex, d: nat)
    requires d < SeatCount
    ensures Dist(from, Step(from, d)) == d
  {
  }

  lemma DistStep(from: SeatIndex, to: SeatIndex)
    ensures Step(from, Dist(from, to)) == to
  {
  }

  lemma StepSucc(from: SeatIndex, d: nat)
    ensures Step(from, d + 1) == Advance(Step(from, d))
  {
  }

  lemma DistAdvance(from: SeatIndex, to: SeatIndex)
    requires from != to
    ensures Dist(Advance(from), to) == Dist(from, to) - 1
  {
  }

  lemma BackSucc(from: SeatIndex, d: nat)
    requires d < SeatCount
    ensures Back(from, d + 1) == Retreat(Back(from, d))
  {
  }

  lemma BackDistBack(from: SeatIndex, d: nat)
    requires d < SeatCount
    ensures BackDist(from, Back(from, d)) == d
  {
  }

  lemma BackBackDist(from: SeatIndex, to: SeatIndex)
    ensures Back(from, BackDist(from, to)) == to
  {
  }

  /** The first seat satisfying `p` at clockwise distance `d` or more from
      `start`, or None when there is none before going full circle. */
  function ScanFrom(p: SeatIndex -> bool, start: SeatIndex, d: nat): (r: Option<SeatIndex>)
    requires d <= SeatCount
    decreases SeatCount - d
    ensures r.Some? ==> p(r.value) && d <= Dist(start, r.value)
    ensures r.Some? ==> forall e :: d <= e < Dist(start, r.value) ==> !p(Step(start, e))
    ensures r.None? ==> forall e :: d <= e < SeatCount ==> !p(Step(start, e))
  {
    if d == SeatCount then None
    else if p(Step(start, d)) then
      StepDist(start, d);
      Some(Step(start, d))
    else ScanFrom(p, start, d + 1)
  }

  /** `r` is the first seat clockwise from `start`, `start` included, that
      satisfies `p`: no seat satisfying `p` is passed over on the way. */
  ghost predicate FirstFrom(p: SeatIndex -> bool, start: SeatIndex, r: SeatIndex) {
    p(r) && forall d :: 0 <= d < Dist(start, r) ==> !p(Step(start, d))
  }

  /** The forward scan `while (players[x] === null) x++` (with wrap-around),
      which finds a seat exactly when some seat qualifies. */
  function NextFrom(p: SeatIndex -> bool, start: SeatIndex): (r: Option<SeatIndex>)
    ensures r.None? <==> forall i: SeatIndex :: !p(i)
    ensures r.Some? ==> FirstFrom(p, start, r.value)
  {
    var r := ScanFrom(p, start, 0);
    if r.None? then
      assert forall i: SeatIndex :: !p(i) by {
        forall i: SeatIndex ensures !p(i) {
          DistStep(start, i);
        }
      }
      r
    else r
  }

  lemma FirstFromUnique(p: SeatIndex -> bool, start: SeatIndex, a: SeatIndex, b: SeatIndex)
    requires FirstFrom(p, start, a) && FirstFrom(p, start, b)
    ensures a == b
  {
    if Dist(start, a) < Dist(start, b) {
      DistStep(start, a);
    } else if Dist(start, b) < Dist(start, a) {
      DistStep(start, b);
    } else {
      DistStep(start, a);
      DistStep(start, b);
    }
  }

  /** The seat test of the scans that look for any player. */
  function IsOccupied(seats: Seats): SeatIndex -> bool {
    (i: SeatIndex) => seats[i].Some?
  }

  /** The first occupied seat clockwise from `start`, `start` included. */
  function NextOccupied(seats: Seats, start: SeatIndex): (r: Option<SeatIndex>)
    ensures r.None? <==> NoneOccupied(seats)
    ensures r.Some? ==> FirstFrom(IsOccupied(seats), start, r.value)
  {
    NextFrom(IsOccupied(seats), start)
  }

  /** The first seat counter-clockwise from `start` satisfying `p`, at
      distance `d` or more. */
  function ScanBackFrom(p: SeatIndex -> bool, start: SeatIndex, d: nat): (r: Option<SeatIndex>)
    requires d <= SeatCount
    decreases SeatCount - d
    ensures r.Some? ==> p(r.value) && d <= BackDist(start, r.value)
    ensures r.Some? ==> forall e :: d <= e < BackDist(start, r.value) ==> !p(Back(start, e))
    ensures r.None? ==> forall e :: d <= e < SeatCount ==> !p(Back(start, e))
  {
    if d == SeatCount then None
    else if p(Back(start, d)) then
      BackDistBack(start, d);
      Some(Back(start, d))
    else ScanBackFrom(p, start, d + 1)
  }

  /** The backward scan `while (!p(x)) { x--; if (x === -1) x = length - 1 }`. */
  function PrevFrom(p: SeatIndex -> bool, start: SeatIndex): (r: Option<SeatIndex>)
    ensures r.None? <==> forall i: SeatIndex :: !p(i)
    ensures r.Some? ==> p(r.value)
    ensures r.Some? ==> forall d :: 0 <= d < BackDist(start, r.value) ==> !p(Back(start, d))
  {
    var r := ScanBackFrom(p, start, 0);
    if r.None? then
      assert forall i: SeatIndex :: !p(i) by {
        forall i: SeatIndex ensures !p(i) {
          BackBackDist(start, i);
        }
      }
      r
    else r
  }

  /** The loop of `moveDealer` and `dealCards`, bounded by one full circle:
      the source's loop is unbounded, which only matters when no seat
      qualifies (it then never ends). */
  method ScanForward(p: SeatIndex -> bool, start: SeatIndex) returns (r: Option<SeatIndex>)
    ensures r == NextFrom(p, start)
  {
    var pos := start;
    var d := 0;
    while d < SeatCount && !p(pos)
      invariant d <= SeatCount && pos == Step(start, d)
      invariant ScanFrom(p, start, d) == ScanFrom(p, start, 0)
    {
      StepSucc(start, d);
      pos := Advance(pos);
      d := d + 1;
    }
    if d < SeatCount {
      r := Some(pos);
    } else {
      r := None;
    }
  }

  /** The loop of `raiseAction` that walks `lastPosition` backwards, bounded
      by one full circle like ScanForward. */
  method ScanBackward(p: SeatIndex -> bool, start: SeatIndex) returns (r: Option<SeatIndex>)
    ensures r == PrevFrom(p, start)
  {
    var pos := start;
    var d := 0;
    while d < SeatCount && !p(pos)
      invariant d <= SeatCount && pos == Back(start, if d == SeatCount then 0 else d)
      invariant ScanBackFrom(p, start, d) == ScanBackFrom(p, start, 0)
    {
      BackSucc(start, d);
      pos := Retreat(pos);
      d := d + 1;
    }
    if d < SeatCount {
      r := Some(pos);
    } else {
      r := None;
    }
  }

  /** `moveDealer(seatNumber)`: reduce the seat modulo the seat count, then
      place the dealer, the small blind and the big blind each on the next
      occupied seat, scanning clockwise. Nothing else changes. */
  function MoveDealer(t: TableState, seatNumber: nat): (r: Result<TableState>)
    ensures r.Failure? <==> NoneOccupied(t.seats)
    ensures r.Failure? ==> r.error == NoSeatedPlayers
    ensures r.Success? ==>
      && r.value.dealer.Some? && r.value.smallBlindPos.Some? && r.value.bigBlindPos.Some?
      && r.value == t.(dealer := r.value.dealer, smallBlindPos := r.value.smallBlindPos,
                       bigBlindPos := r.value.bigBlindPos)
  {
    if NoneOccupied(t.seats) then Failure(NoSeatedPlayers)
    else
      var d := NextOccupied(t.seats, seatNumber % SeatCount).value;
      var sb := NextOccupied(t.seats, Advance(d)).value;
      var bb := NextOccupied(t.seats, Advance(sb)).value;
      Success(t.(dealer := Some(d), smallBlindPos := Some(sb), bigBlindPos := Some(bb)))
  }

  /** After `moveDealer`, the dealer, small blind and big blind are occupied
      seats, each the first occupied seat clockwise from where its scan
      starts: the requested seat for the dealer, the seat after the dealer
      for the small blind, the seat after the small blind for the big blind. */
  lemma MoveDealerPositions(t: TableState, seatNumber: nat)
    requires !NoneOccupied(t.seats)
    ensures MoveDealer(t, seatNumber).Success?
    ensures var u := MoveDealer(t, seatNumber).value;
      && FirstFrom(IsOccupied(t.seats), seatNumber % SeatCount, u.dealer.value)
      && FirstFrom(IsOccupied(t.seats), Advance(u.dealer.value), u.smallBlindPos.value)
      && FirstFrom(IsOccupied(t.seats), Advance(u.smallBlindPos.value), u.bigBlindPos.value)
  {
  }

  /** A clockwise scan that starts just after `x` comes back to `x` only
      when no other seat qualifies. */
  lemma NextAfterIsOther(p: SeatIndex -> bool, x: SeatIndex, y: SeatIndex, z: SeatIndex)
    requires FirstFrom(p, Advance(x), y) && p(z) && z != x
    ensures y != x
  {
    DistStep(Advance(x), z);
    assert Dist(Advance(x), y) <= Dist(Advance(x), z) < SeatCount - 1;
    assert Dist(Advance(x), x) == SeatCount - 1;
  }

  /** With two or more occupied seats the small blind is not the dealer and
      the big blind is not the small blind. */
  lemma MoveDealerDistinct(t: TableState, seatNumber: nat, a: SeatIndex, b: SeatIndex)
    requires a != b && t.seats[a].Some? && t.seats[b].Some?
    ensures MoveDealer(t, seatNumber).Success?
    ensures var u := MoveDealer(t, seatNumber).value;
      u.smallBlindPos != u.dealer && u.bigBlindPos != u.smallBlindPos
  {
    var u := MoveDealer(t, seatNumber).value;
    MoveDealerPositions(t, seatNumber);
    var d := u.dealer.value;
    var sb := u.smallBlindPos.value;
    NextAfterIsOther(IsOccupied(t.seats), d, sb, if a != d then a else b);
    NextAfterIsOther(IsOccupied(t.seats), sb, u.bigBlindPos.value, if a != sb then a else b);
  }

  /** Moving the button on from the dealer's seat, with some other seat
      taken, lands on another seat. */
  lemma MoveDealerMovesOn(t: TableState, n: nat, z: SeatIndex)
    requires t.dealer.Some? && n == t.dealer.value + 1
    requires z != t.dealer.value && t.seats[z].Some?
    ensures MoveDealer(t, n).Success?
    ensures MoveDealer(t, n).value.dealer != t.dealer
  {
    assert n % SeatCount == Advance(t.dealer.value);
    MoveDealerPositions(t, n);
    NextAfterIsOther(IsOccupied(t.seats), t.dealer.value, MoveDealer(t, n).value.dealer.value, z);
  }
}
