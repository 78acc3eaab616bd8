/** Relative motion and wheel travel (`MotionCarry`, `WheelAccumulator` in `HardwareInput`): what an
    event does not pass on is kept for the next one. Doubles are reals here. */
module HardwareMotion {

  // ---------------------------------------------------------------- motion

  const MOST := 30000

  function Clamp(v: real): real { if v > MOST as real then MOST as real else if v < -(MOST as real) then -(MOST as real) else v }

  /** `Int32(_:)` of a real: toward zero. */
  function Truncated(v: real): int { if v >= 0.0 then v.Floor else -((-v).Floor) }

  function Emitted(v: real): int { Truncated(Clamp(v)) }

  class MotionCarry {
    var x: real
    var y: real

    constructor ()
      ensures x == 0.0 && y == 0.0
    {
      x, y := 0.0, 0.0;
    }

    /** Nothing is lost: what is emitted and what is carried make up what was there and came in. An
        emission is within the clamp, and less than a whole count is carried exactly unless the clamp
        held something back. */
    method Add(dx: real, dy: real, gain: real) returns (ix: int, iy: int)
      modifies this
      ensures ix as real + x == old(x) + dx * gain && iy as real + y == old(y) + dy * gain
      ensures -MOST <= ix <= MOST && -MOST <= iy <= MOST
      ensures ix == Emitted(old(x) + dx * gain) && iy == Emitted(old(y) + dy * gain)
      ensures -1.0 < x < 1.0 <==> -(MOST as real) - 1.0 < old(x) + dx * gain < MOST as real + 1.0
      ensures -1.0 < y < 1.0 <==> -(MOST as real) - 1.0 < old(y) + dy * gain < MOST as real + 1.0
    {
      x := x + dx * gain;
      y := y + dy * gain;
      ix, iy := Truncated(Clamp(x)), Truncated(Clamp(y));
      EmittedWithin(x);
      EmittedWithin(y);
      x := x - ix as real;
      y := y - iy as real;
    }
  }

  lemma EmittedWithin(v: real)
    ensures -MOST <= Emitted(v) <= MOST
    ensures -1.0 < v - Emitted(v) as real < 1.0 <==> -(MOST as real) - 1.0 < v < MOST as real + 1.0
  {
  }

  datatype Move = Move(dx: real, gain: real)

  /** The carry of one axis and the counts emitted so far. */
  datatype Axis = Axis(carry: real, sum: int)

  function Moved(a: Axis, m: Move): Axis {
    var v := a.carry + m.dx * m.gain;
    Axis(v - Emitted(v) as real, a.sum + Emitted(v))
  }

  function AfterMoves(moves: seq<Move>): Axis {
    if moves == [] then Axis(0.0, 0) else Moved(AfterMoves(moves[..|moves| - 1]), moves[|moves| - 1])
  }

  function Travel(moves: seq<Move>): real {
    if moves == [] then 0.0 else Travel(moves[..|moves| - 1]) + moves[|moves| - 1].dx * moves[|moves| - 1].gain
  }

  /** Over any events the emitted counts and the carry add up to the scaled input. */
  lemma {:induction false} MotionIsConserved(moves: seq<Move>)
    ensures AfterMoves(moves).sum as real + AfterMoves(moves).carry == Travel(moves)
  {
    if moves != [] { MotionIsConserved(moves[..|moves| - 1]); }
  }

  // ---------------------------------------------------------------- the wheel

  const MOST_NOTCHES := 32

  /** One wheel notch: sideways or not, forward or back. */
  datatype Notch = Notch(sideways: bool, positive: bool)

  /** So many notches as travel. */
  function Times(notch: real, n: int): real { notch * n as real }

  lemma OneMore(notch: real, n: int)
    ensures Times(notch, n + 1) == Times(notch, n) + notch
  {
  }

  lemma Sum(notch: real, a: int, b: int)
    ensures Times(notch, a + b) == Times(notch, a) + Times(notch, b)
    ensures Times(notch, a - b) == Times(notch, a) - Times(notch, b)
    ensures Times(notch, 0) == 0.0
  {
  }

  // ---------------------------------------------------------------- one event

  /** Whole notches of one direction in a travel, as far as there is room for them. */
  function Whole(notch: real, travel: real, room: nat): (n: nat)
    ensures n <= room
    decreases room
  {
    if travel >= notch && room > 0 then 1 + Whole(notch, travel - notch, room - 1) else 0
  }

  /** What an axis makes of a travel: notches forward, notches back, and the rest. */
  datatype Turned = Turned(forward: nat, back: nat, rest: real) {
    function Used(): nat { forward + back }
    function Net(): int { forward - back }
  }

  function Turn(notch: real, travel: real, room: nat): (t: Turned)
    ensures t.Used() <= room
  {
    var forward := Whole(notch, travel, room);
    var left := travel - Times(notch, forward);
    var back := Whole(notch, -left, room - forward);
    Turned(forward, back, left + Times(notch, back))
  }

  /** The residues of both axes. */
  datatype Wheel = Wheel(x: real, y: real)

  const AT_REST := Wheel(0.0, 0.0)

  /** An event of the wheel. */
  datatype Roll = Roll(dx: real, dy: real)

  /** The upright axis goes first, the other gets the room that is left. */
  function Upright(notch: real, w: Wheel, r: Roll): Turned { Turn(notch, w.y + r.dy, MOST_NOTCHES) }

  function Sideways(notch: real, w: Wheel, r: Roll): Turned { Turn(notch, w.x + r.dx, MOST_NOTCHES - Upright(notch, w, r).Used()) }

  function OfAxis(notch: real, w: Wheel, r: Roll, sideways: bool): Turned {
    if sideways then Sideways(notch, w, r) else Upright(notch, w, r)
  }

  predicate Full(notch: real, w: Wheel, r: Roll) { Upright(notch, w, r).Used() + Sideways(notch, w, r).Used() >= MOST_NOTCHES }

  function Rolled(notch: real, w: Wheel, r: Roll): Wheel {
    if notch <= 0.0 then w
    else if Full(notch, w, r) then AT_REST
    else Wheel(Sideways(notch, w, r).rest, Upright(notch, w, r).rest)
  }

  function Repeated(n: Notch, count: nat): seq<Notch> {
    if count == 0 then [] else Repeated(n, count - 1) + [n]
  }

  function NotchesOf(sideways: bool, t: Turned): seq<Notch> {
    Repeated(Notch(sideways, true), t.forward) + Repeated(Notch(sideways, false), t.back)
  }

  /** The notches an event posts. */
  function Posted(notch: real, w: Wheel, r: Roll): seq<Notch> {
    if notch <= 0.0 then [] else NotchesOf(false, Upright(notch, w, r)) + NotchesOf(true, Sideways(notch, w, r))
  }

  lemma {:induction false} RepeatedLength(n: Notch, count: nat)
    ensures |Repeated(n, count)| == count
  {
    if count > 0 { RepeatedLength(n, count - 1); }
  }

  class WheelAccumulator {
    const notch: real
    var x: real
    var y: real

    ghost function Current(): Wheel
      reads this
    {
      Wheel(x, y)
    }

    constructor (notch: real)
      ensures this.notch == notch && Current() == AT_REST
    {
      this.notch, x, y := notch, 0.0, 0.0;
    }

    /** One loop: notches of one direction leave a travel until less than one is left there or the
        event is full. */
    method Take(before: seq<Notch>, n: Notch, travel: real) returns (out: seq<Notch>, rest: real)
      requires notch > 0.0 && |before| <= MOST_NOTCHES
      ensures var count := Whole(notch, Signed(travel, n), MOST_NOTCHES - |before|);
        && out == before + Repeated(n, count) && |out| == |before| + count
        && Signed(rest, n) == Signed(travel, n) - Times(notch, count)
    {
      hide Times, Whole;
      out, rest := before, travel;
      ghost var room := MOST_NOTCHES - |before|;
      ghost var taken: nat := 0;
      assert Times(notch, 0) == 0.0 by { Sum(notch, 0, 0); }
      while Signed(rest, n) >= notch && |out| < MOST_NOTCHES
        invariant taken <= room && |out| == |before| + taken && out == before + Repeated(n, taken)
        invariant Signed(rest, n) == Signed(travel, n) - Times(notch, taken)
        invariant Whole(notch, Signed(travel, n), room) == taken + Whole(notch, Signed(rest, n), room - taken)
        decreases MOST_NOTCHES - |out|
      {
        OneMore(notch, taken);
        WholeStep(notch, Signed(rest, n), room - taken);
        rest := if n.positive then rest - notch else rest + notch;
        out := out + [n];
        taken := taken + 1;
      }
      WholeStep(notch, Signed(rest, n), room - taken);
    }

    /** The two loops of an axis. */
    method TakeBoth(before: seq<Notch>, sideways: bool, travel: real) returns (out: seq<Notch>, rest: real)
      requires notch > 0.0 && |before| <= MOST_NOTCHES
      ensures var t := Turn(notch, travel, MOST_NOTCHES - |before|);
        out == before + NotchesOf(sideways, t) && |out| == |before| + t.Used() && rest == t.rest
    {
      hide Times, Whole;
      var first, middle := Take(before, Notch(sideways, true), travel);
      out, rest := Take(first, Notch(sideways, false), middle);
    }

    method Add(dx: real, dy: real) returns (out: seq<Notch>)
      modifies this
      ensures out == Posted(notch, old(Current()), Roll(dx, dy)) && Current() == Rolled(notch, old(Current()), Roll(dx, dy))
    {
      hide Turn, NotchesOf;
      out := [];
      if notch <= 0.0 { return; }
      y := y + dy;
      x := x + dx;
      out, y := TakeBoth(out, false, y);
      out, x := TakeBoth(out, true, x);
      if |out| >= MOST_NOTCHES { x, y := 0.0, 0.0; }
    }
  }

  /** A travel seen in a notch's own direction. */
  function Signed(v: real, n: Notch): real { if n.positive then v else -v }

  lemma WholeStep(notch: real, travel: real, room: nat)
    ensures Whole(notch, travel, room) == if travel >= notch && room > 0 then 1 + Whole(notch, travel - notch, room - 1) else 0
  {
  }

  /** What is left when whole notches are taken off: less than one if there was room for more. */
  lemma {:induction false} WholeLeaves(notch: real, travel: real, room: nat)
    requires notch > 0.0
    ensures var n := Whole(notch, travel, room); var left := travel - Times(notch, n);
      (n > 0 ==> left >= 0.0) && (n < room ==> left < notch) && (n == 0 ==> left == travel)
    decreases room
  {
    hide Times;
    Sum(notch, 0, 0);
    if travel >= notch && room > 0 {
      WholeLeaves(notch, travel - notch, room - 1);
      OneMore(notch, Whole(notch, travel - notch, room - 1));
    }
  }

  /** An axis loses nothing between its notches and its rest, and keeps less than a notch when there
      was room for more. */
  lemma TurnKeepsTravel(notch: real, travel: real, room: nat)
    requires notch > 0.0
    ensures var t := Turn(notch, travel, room);
      t.rest + Times(notch, t.Net()) == travel && (t.Used() < room ==> -notch < t.rest < notch)
  {
    hide Times, Whole;
    var t := Turn(notch, travel, room);
    var left := travel - Times(notch, t.forward);
    WholeLeaves(notch, travel, room);
    WholeLeaves(notch, -left, room - t.forward);
    Sum(notch, t.forward, t.back);
  }

  // ---------------------------------------------------------------- over any events

  /** Signed notches of one axis. */
  function Net(out: seq<Notch>, sideways: bool): int {
    if out == [] then 0
    else
      var last := out[|out| - 1];
      Net(out[..|out| - 1], sideways) + if last.sideways != sideways then 0 else if last.positive then 1 else -1
  }

  lemma NetNone(sideways: bool)
    ensures Net([], sideways) == 0
  {
  }

  lemma {:induction false} NetConcat(a: seq<Notch>, b: seq<Notch>, sideways: bool)
    ensures Net(a + b, sideways) == Net(a, sideways) + Net(b, sideways)
  {
    if b == [] {
      assert a + b == a;
    } else {
      NetConcat(a, b[..|b| - 1], sideways);
      assert (a + b)[..|a + b| - 1] == a + b[..|b| - 1];
    }
  }

  lemma {:induction false} NetRepeated(n: Notch, count: nat, sideways: bool)
    ensures Net(Repeated(n, count), sideways) == if n.sideways != sideways then 0 else if n.positive then count as int else -(count as int)
  {
    if count > 0 {
      NetRepeated(n, count - 1, sideways);
      RepeatedLength(n, count - 1);
      assert Repeated(n, count)[..count - 1] == Repeated(n, count - 1);
    }
  }

  /** The notches an event posts for an axis are those of that axis. */
  lemma NetPosted(notch: real, w: Wheel, r: Roll, sideways: bool)
    requires notch > 0.0
    ensures Net(Posted(notch, w, r), sideways) == OfAxis(notch, w, r, sideways).Net()
  {
    hide Turn, Net, Repeated;
    var up, side := Upright(notch, w, r), Sideways(notch, w, r);
    NetConcat(NotchesOf(false, up), NotchesOf(true, side), sideways);
    forall turned: Turned, axis: bool ensures Net(NotchesOf(axis, turned), sideways) == if axis == sideways then turned.Net() else 0 {
      NetConcat(Repeated(Notch(axis, true), turned.forward), Repeated(Notch(axis, false), turned.back), sideways);
      NetRepeated(Notch(axis, true), turned.forward, sideways);
      NetRepeated(Notch(axis, false), turned.back, sideways);
    }
  }

  /** The residues after some events, and all notches they posted. */
  function AfterRolls(notch: real, rolls: seq<Roll>): Wheel {
    if rolls == [] then AT_REST else Rolled(notch, AfterRolls(notch, rolls[..|rolls| - 1]), rolls[|rolls| - 1])
  }

  function AllPosted(notch: real, rolls: seq<Roll>): seq<Notch> {
    if rolls == [] then []
    else
      var before := rolls[..|rolls| - 1];
      AllPosted(notch, before) + Posted(notch, AfterRolls(notch, before), rolls[|rolls| - 1])
  }

  function Residue(w: Wheel, sideways: bool): real { if sideways then w.x else w.y }

  function Given(r: Roll, sideways: bool): real { if sideways then r.dx else r.dy }

  function TotalGiven(rolls: seq<Roll>, sideways: bool): real {
    if rolls == [] then 0.0 else TotalGiven(rolls[..|rolls| - 1], sideways) + Given(rolls[|rolls| - 1], sideways)
  }

  /** What an event gives up: the rest of the axis when it is full. */
  function Dropped(notch: real, w: Wheel, r: Roll, sideways: bool): real {
    if Full(notch, w, r) then OfAxis(notch, w, r, sideways).rest else 0.0
  }

  function TotalDropped(notch: real, rolls: seq<Roll>, sideways: bool): real {
    if rolls == [] then 0.0
    else
      var before := rolls[..|rolls| - 1];
      TotalDropped(notch, before, sideways) + Dropped(notch, AfterRolls(notch, before), rolls[|rolls| - 1], sideways)
  }

  /** Some event of the run is full. */
  predicate EverFull(notch: real, rolls: seq<Roll>) {
    rolls != [] && (EverFull(notch, rolls[..|rolls| - 1]) || Full(notch, AfterRolls(notch, rolls[..|rolls| - 1]), rolls[|rolls| - 1]))
  }

  lemma RollKeepsTravel(notch: real, w: Wheel, r: Roll, sideways: bool)
    requires notch > 0.0
    ensures Residue(Rolled(notch, w, r), sideways) + Dropped(notch, w, r, sideways) + Times(notch, Net(Posted(notch, w, r), sideways))
      == Residue(w, sideways) + Given(r, sideways)
    ensures -notch < Residue(Rolled(notch, w, r), sideways) < notch
  {
    hide Turn, Net, Posted, Times;
    NetPosted(notch, w, r, sideways);
    TurnKeepsTravel(notch, w.y + r.dy, MOST_NOTCHES);
    TurnKeepsTravel(notch, w.x + r.dx, MOST_NOTCHES - Upright(notch, w, r).Used());
  }

  /** Over any events the notches at their size, the residue and what full events gave up make up the
      input of each axis; the residue is less than a notch. Without a full event nothing is lost. */
  lemma {:induction false} WheelIsConserved(notch: real, rolls: seq<Roll>, sideways: bool)
    requires notch > 0.0
    ensures Residue(AfterRolls(notch, rolls), sideways) + TotalDropped(notch, rolls, sideways) + Times(notch, Net(AllPosted(notch, rolls), sideways))
      == TotalGiven(rolls, sideways)
    ensures -notch < Residue(AfterRolls(notch, rolls), sideways) < notch
    ensures !EverFull(notch, rolls) ==> TotalDropped(notch, rolls, sideways) == 0.0
  {
    hide Rolled, Posted, Net, Times, Full, OfAxis;
    if rolls == [] {
      Sum(notch, 0, 0);
      NetNone(sideways);
    } else {
      var before, last := rolls[..|rolls| - 1], rolls[|rolls| - 1];
      var w := AfterRolls(notch, before);
      WheelIsConserved(notch, before, sideways);
      RollKeepsTravel(notch, w, last, sideways);
      NetConcat(AllPosted(notch, before), Posted(notch, w, last), sideways);
      Sum(notch, Net(AllPosted(notch, before), sideways), Net(Posted(notch, w, last), sideways));
    }
  }

  /** A full event that turned the wheel upright for all its notches gives up everything sideways, the
      residue from before included; one that had room left upright gives up less than a notch there. */
  lemma FullEventDrops(notch: real, w: Wheel, r: Roll)
    requires notch > 0.0 && Full(notch, w, r)
    ensures Rolled(notch, w, r) == AT_REST
    ensures Upright(notch, w, r).Used() == MOST_NOTCHES ==> Dropped(notch, w, r, true) == w.x + r.dx && Sideways(notch, w, r).Used() == 0
    ensures Upright(notch, w, r).Used() < MOST_NOTCHES ==> -notch < Dropped(notch, w, r, false) < notch
    ensures forall sideways :: Dropped(notch, w, r, sideways) == Residue(w, sideways) + Given(r, sideways) - Times(notch, OfAxis(notch, w, r, sideways).Net())
  {
    hide Times, Whole;
    var side := Sideways(notch, w, r);
    TurnKeepsTravel(notch, w.y + r.dy, MOST_NOTCHES);
    TurnKeepsTravel(notch, w.x + r.dx, MOST_NOTCHES - Upright(notch, w, r).Used());
    Sum(notch, 0, 0);
  }
}
