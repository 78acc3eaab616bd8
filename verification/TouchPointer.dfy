/** Touch-pointer mode (`ContentView`): fingers become clicks, drags and wheel steps. Positions are
    in the view's coordinates; their mapping to the guest's screen is not part of this model. */
module TouchPointer {

  datatype Point = Point(x: real, y: real)

  datatype Touch = Touch(id: nat, at: Point)

  datatype Posted =
    | CursorMove(at: Point)
    | LeftDown(at: Point)
    | LeftMove(at: Point)
    | LeftUp(at: Point)
    | Wheel(at: Point, delta: int)
    | RightClick(at: Point)
    | MiddleClick(at: Point)

  /** A hold timer that was started: its generation, its finger, and the gesture it belongs to. */
  datatype Timer = Timer(generation: nat, finger: nat, gesture: nat)

  /** The `tm` fields, the timers started so far, the number of resets, and what was posted. */
  datatype Gesture = Gesture(
    downs: seq<Touch>, first: Point, peak: nat, resolved: bool, drag: nat, slopBroken: bool, generation: nat,
    lastY: real, scroll: real, timers: set<Timer>, gestures: nat, posted: seq<Posted>)

  const ORIGIN := Point(0.0, 0.0)
  const START := Gesture([], ORIGIN, 0, false, 0, false, 0, 0.0, 0.0, {}, 0, [])
  const SLOP := 10.0
  const NOTCH := 14.0

  // ---------------------------------------------------------------- pieces of the handlers

  predicate Has(downs: seq<Touch>, id: nat) { exists i :: 0 <= i < |downs| && downs[i].id == id }

  /** Where a finger of a list is. */
  function DownOf(downs: seq<Touch>, id: nat): Point
    requires Has(downs, id)
  {
    if downs[0].id == id then downs[0].at else DownOf(downs[1..], id)
  }

  function AddDowns(downs: seq<Touch>, touches: seq<Touch>): seq<Touch> {
    if touches == [] then downs
    else
      var before, last := AddDowns(downs, touches[..|touches| - 1]), touches[|touches| - 1];
      if Has(before, last.id) then before else before + [last]
  }

  /** `tmResetGesture` */
  function Reset(g: Gesture): Gesture {
    Gesture([], ORIGIN, 0, false, 0, false, g.generation + 1, 0.0, 0.0, g.timers, g.gestures + 1, g.posted)
  }

  function SumOf(points: seq<Touch>): Point {
    if points == [] then ORIGIN
    else
      var rest, last := SumOf(points[..|points| - 1]), points[|points| - 1].at;
      Point(rest.x + last.x, rest.y + last.y)
  }

  function Average(points: seq<Touch>): Point
    requires points != []
  {
    Point(SumOf(points).x / |points| as real, SumOf(points).y / |points| as real)
  }

  /** `tmMidpoint` */
  function Midpoint(downs: seq<Touch>, first: Point): Point { if downs == [] then first else Average(downs) }

  /** `tmCommitDrag`: the button goes down where the gesture began. */
  function CommitDrag(g: Gesture, finger: nat): Gesture {
    if g.resolved then g else g.(resolved := true, drag := finger, posted := g.posted + [LeftDown(g.first)])
  }

  /** Farther than the slop from where it went down. */
  predicate Far(p: Point, down: Point) {
    (p.x - down.x) * (p.x - down.x) + (p.y - down.y) * (p.y - down.y) > SLOP * SLOP
  }

  /** One finger of a move. */
  function MoveOne(g: Gesture, t: Touch): Gesture {
    if !Has(g.downs, t.id) then g
    else if g.resolved then if t.id == g.drag then g.(posted := g.posted + [LeftMove(t.at)]) else g
    else if !Far(t.at, DownOf(g.downs, t.id)) then g
    else if |g.downs| != 1 then g.(slopBroken := true)
    else
      var down := CommitDrag(g.(slopBroken := true), t.id);
      down.(posted := down.posted + [LeftMove(t.at)])
  }

  function MoveAll(g: Gesture, touches: seq<Touch>): Gesture {
    if touches == [] then g else MoveOne(MoveAll(g, touches[..|touches| - 1]), touches[|touches| - 1])
  }

  /** `count` wheel steps of one sign at a point. */
  function Wheels(at: Point, delta: int, count: nat): seq<Posted> {
    if count == 0 then [] else Wheels(at, delta, count - 1) + [Wheel(at, delta)]
  }

  /** Whole notches below and above an accumulated travel. */
  function NotchesUp(scroll: real): nat { if scroll >= NOTCH then (scroll / NOTCH).Floor as nat else 0 }

  function NotchesDown(scroll: real): nat { if scroll <= -NOTCH then (-scroll / NOTCH).Floor as nat else 0 }

  /** Two fingers moving: the travel of their middle turns the wheel. */
  function Scrolled(g: Gesture, active: seq<Touch>): Gesture
    requires |active| == 2
  {
    var middle := Average(active);
    var last := if g.lastY == 0.0 then middle.y else g.lastY;
    var dy := middle.y - last;
    var scroll := g.scroll + dy;
    var up, down := NotchesUp(scroll), NotchesDown(scroll);
    g.(
      slopBroken := g.slopBroken || dy > 2.0 || dy < -2.0, lastY := middle.y,
      scroll := scroll - NOTCH * up as real + NOTCH * down as real,
      posted := g.posted + Wheels(middle, -120, down) + Wheels(middle, 120, up))
  }

  // ---------------------------------------------------------------- the handlers

  /** `touchModeBegan` */
  function Began(g: Gesture, touches: seq<Touch>): Gesture {
    if g.resolved then g
    else
      var downs := AddDowns(g.downs, touches);
      var joined := g.(downs := downs, peak := if |downs| > g.peak then |downs| else g.peak, generation := g.generation + 1);
      if |downs| == 1 && touches != [] then
        joined.(
          first := touches[0].at, posted := g.posted + [CursorMove(touches[0].at)],
          timers := g.timers + {Timer(g.generation + 1, touches[0].id, g.gestures)})
      else joined
  }

  /** The hold timer's block. */
  function Fired(g: Gesture, timer: Timer): Gesture {
    if g.generation == timer.generation && !g.resolved && |g.downs| == 1 then CommitDrag(g, timer.finger) else g
  }

  /** `touchModeMoved`; `active` are the fingers still on the glass. */
  function Moved(g: Gesture, touches: seq<Touch>, active: seq<Touch>): Gesture {
    if !g.resolved && |g.downs| == 2 && |active| == 2 then Scrolled(g, active) else MoveAll(g, touches)
  }

  /** What a gesture of taps clicks. */
  function Click(peak: nat, at: Point): seq<Posted> {
    if peak == 1 then [LeftDown(at), LeftUp(at)] else if peak == 2 then [RightClick(at)] else if peak == 3 then [MiddleClick(at)] else []
  }

  /** `touchModeEnded` */
  function Ended(g: Gesture, touches: seq<Touch>, active: seq<Touch>): Gesture {
    if g.resolved then
      if Has(touches, g.drag) then Reset(g.(posted := g.posted + [LeftUp(DownOf(touches, g.drag))])) else g
    else if active != [] then g
    else Reset(g).(posted := g.posted + if g.slopBroken then [] else Click(g.peak, Midpoint(g.downs, g.first)))
  }

  /** `touchModeCancelled` */
  function Cancelled(g: Gesture, touches: seq<Touch>): Gesture {
    if g.resolved then
      if Has(touches, g.drag) then Reset(g.(posted := g.posted + [LeftUp(DownOf(touches, g.drag))])) else g
    else Reset(g)
  }

  datatype Event =
    | Begin(touches: seq<Touch>)
    | Move(touches: seq<Touch>, active: seq<Touch>)
    | End(touches: seq<Touch>, active: seq<Touch>)
    | Cancel(touches: seq<Touch>)
    | Fire(timer: Timer)

  /** One callback; only a timer that was started can fire, and it may fire at any later time. */
  function Next(g: Gesture, e: Event): Gesture {
    match e
    case Begin(touches) => Began(g, touches)
    case Move(touches, active) => Moved(g, touches, active)
    case End(touches, active) => Ended(g, touches, active)
    case Cancel(touches) => Cancelled(g, touches)
    case Fire(timer) => if timer in g.timers then Fired(g, timer) else g
  }

  function After(g: Gesture, events: seq<Event>): Gesture {
    if events == [] then g else Next(After(g, events[..|events| - 1]), events[|events| - 1])
  }

  /** The view's gesture machine. */
  class GestureView {
    var downs: seq<Touch>
    var first: Point
    var peak: nat
    var resolved: bool
    var drag: nat
    var slopBroken: bool
    var generation: nat
    var lastY: real
    var scroll: real
    var timers: set<Timer>
    var gestures: nat
    var posted: seq<Posted>

    ghost function Current(): Gesture
      reads this
    {
      Gesture(downs, first, peak, resolved, drag, slopBroken, generation, lastY, scroll, timers, gestures, posted)
    }

    constructor ()
      ensures Current() == START
    {
      downs, first, peak, resolved, drag, slopBroken := [], ORIGIN, 0, false, 0, false;
      generation, lastY, scroll, timers, gestures, posted := 0, 0.0, 0.0, {}, 0, [];
    }

    method ResetGesture()
      modifies this
      ensures Current() == Reset(old(Current()))
    {
      downs, first, peak, resolved, drag, slopBroken := [], ORIGIN, 0, false, 0, false;
      generation, lastY, scroll, gestures := generation + 1, 0.0, 0.0, gestures + 1;
    }

    method Commit(finger: nat)
      modifies this
      ensures Current() == CommitDrag(old(Current()), finger)
    {
      if resolved { return; }
      resolved, drag := true, finger;
      posted := posted + [LeftDown(first)];
    }

    /** Fingers that are new to the gesture get their down points. */
    method AddFingers(touches: seq<Touch>)
      modifies `downs
      ensures downs == AddDowns(old(downs), touches)
    {
      for i := 0 to |touches|
        invariant downs == AddDowns(old(downs), touches[..i])
      {
        assert touches[..i + 1][..i] == touches[..i];
        if !Has(downs, touches[i].id) { downs := downs + [touches[i]]; }
      }
      assert touches[..|touches|] == touches;
    }

    method TouchesBegan(touches: seq<Touch>)
      modifies this
      ensures Current() == Began(old(Current()), touches)
    {
      hide AddDowns;
      if resolved { return; }
      AddFingers(touches);
      if |downs| > peak { peak := |downs|; }
      generation := generation + 1;
      if |downs| == 1 && touches != [] {
        first := touches[0].at;
        posted := posted + [CursorMove(first)];
        timers := timers + {Timer(generation, touches[0].id, gestures)};
      }
    }

    method TimerFired(timer: Timer)
      modifies this
      ensures Current() == Fired(old(Current()), timer)
    {
      if generation == timer.generation && !resolved && |downs| == 1 { Commit(timer.finger); }
    }

    method TouchesMoved(touches: seq<Touch>, active: seq<Touch>)
      modifies this
      ensures Current() == Moved(old(Current()), touches, active)
    {
      if !resolved && |downs| == 2 && |active| == 2 {
        Scroll(active);
        return;
      }
      for i := 0 to |touches|
        invariant Current() == MoveAll(old(Current()), touches[..i])
      {
        assert touches[..i + 1][..i] == touches[..i];
        MoveFinger(touches[i]);
      }
      assert touches[..|touches|] == touches;
    }

    method MoveFinger(t: Touch)
      modifies this
      ensures Current() == MoveOne(old(Current()), t)
    {
      if !Has(downs, t.id) { return; }
      if resolved {
        if t.id == drag { posted := posted + [LeftMove(t.at)]; }
        return;
      }
      if |downs| != 1 {
        if Far(t.at, DownOf(downs, t.id)) { slopBroken := true; }
        return;
      }
      if Far(t.at, DownOf(downs, t.id)) {
        slopBroken := true;
        Commit(t.id);
        posted := posted + [LeftMove(t.at)];
      }
    }

    /** The loops that take whole notches off the travel. */
    method TurnWheel(at: Point)
      modifies `scroll, `posted
      ensures var travel := old(scroll); scroll == travel - NOTCH * NotchesUp(travel) as real + NOTCH * NotchesDown(travel) as real
      ensures posted == old(posted) + Wheels(at, -120, NotchesDown(old(scroll))) + Wheels(at, 120, NotchesUp(old(scroll)))
    {
      var down: nat, up: nat := 0, 0;
      while scroll <= -NOTCH
        invariant scroll == old(scroll) + NOTCH * down as real
        invariant down > 0 ==> scroll <= 0.0
        invariant posted == old(posted) + Wheels(at, -120, down)
        decreases (-scroll / NOTCH).Floor
      {
        scroll := scroll + NOTCH;
        down := down + 1;
        posted := posted + [Wheel(at, -120)];
      }
      CountDown(old(scroll), down, scroll);
      while scroll >= NOTCH
        invariant scroll == old(scroll) + NOTCH * down as real - NOTCH * up as real
        invariant up > 0 ==> scroll >= 0.0
        invariant scroll > -NOTCH
        invariant posted == old(posted) + Wheels(at, -120, down) + Wheels(at, 120, up)
        decreases (scroll / NOTCH).Floor
      {
        scroll := scroll - NOTCH;
        up := up + 1;
        posted := posted + [Wheel(at, 120)];
      }
      CountUp(old(scroll), down, up, scroll);
    }

    /** The two-finger branch. */
    method Scroll(active: seq<Touch>)
      requires |active| == 2
      modifies this
      ensures Current() == Scrolled(old(Current()), active)
    {
      hide Wheels, NotchesUp, NotchesDown;
      var middle := Average(active);
      if lastY == 0.0 { lastY := middle.y; }
      var dy := middle.y - lastY;
      if dy > 2.0 || dy < -2.0 { slopBroken := true; }
      lastY := middle.y;
      scroll := scroll + dy;
      TurnWheel(middle);
    }

    method TouchesEnded(touches: seq<Touch>, active: seq<Touch>)
      modifies this
      ensures Current() == Ended(old(Current()), touches, active)
    {
      if resolved && Has(touches, drag) {
        posted := posted + [LeftUp(DownOf(touches, drag))];
        ResetGesture();
        return;
      }
      if resolved { return; }
      if active != [] { return; }
      var peakNow, middle, brokeSlop := peak, Midpoint(downs, first), slopBroken;
      ResetGesture();
      if brokeSlop { return; }
      match peakNow {
        case 1 =>
          posted := posted + [LeftDown(middle)];
          posted := posted + [LeftUp(middle)];
        case 2 => posted := posted + [RightClick(middle)];
        case 3 => posted := posted + [MiddleClick(middle)];
        case _ =>
      }
    }

    method TouchesCancelled(touches: seq<Touch>)
      modifies this
      ensures Current() == Cancelled(old(Current()), touches)
    {
      if resolved && Has(touches, drag) {
        posted := posted + [LeftUp(DownOf(touches, drag))];
        ResetGesture();
        return;
      }
      if !resolved { ResetGesture(); }
    }
  }

  lemma CountDown(travel: real, down: nat, scroll: real)
    requires scroll == travel + NOTCH * down as real && scroll > -NOTCH && (down > 0 ==> scroll <= 0.0)
    ensures down == NotchesDown(travel)
  {
  }

  lemma CountUp(travel: real, down: nat, up: nat, scroll: real)
    requires scroll == travel + NOTCH * down as real - NOTCH * up as real && scroll < NOTCH && (up > 0 ==> scroll >= 0.0)
    requires down == NotchesDown(travel)
    ensures up == NotchesUp(travel)
  {
  }
}
