/** Safety of touch-pointer mode over every run of callbacks and hold timers. */
module TouchPointerLaws {
  import opened TouchPointer

  // ---------------------------------------------------------------- the left button

  predicate IsLeft(p: Posted) { p.LeftDown? || p.LeftMove? || p.LeftUp? }

  /** The left button is down after what was posted. */
  function Held(posted: seq<Posted>): bool {
    if posted == [] then false
    else
      var last := posted[|posted| - 1];
      if last.LeftDown? then true else if last.LeftUp? then false else Held(posted[..|posted| - 1])
  }

  /** Downs come while the button is up; moves and ups while it is down. */
  predicate Proper(posted: seq<Posted>) {
    posted == [] ||
      var before, last := posted[..|posted| - 1], posted[|posted| - 1];
      Proper(before) && (last.LeftDown? ==> !Held(before)) && (last.LeftMove? || last.LeftUp? ==> Held(before))
  }

  lemma PostOne(posted: seq<Posted>, p: Posted)
    requires Proper(posted)
    ensures Held(posted + [p]) == if p.LeftDown? then true else if p.LeftUp? then false else Held(posted)
    ensures (p.LeftDown? ==> !Held(posted)) && (p.LeftMove? || p.LeftUp? ==> Held(posted)) ==> Proper(posted + [p])
  {
    assert (posted + [p])[..|posted|] == posted;
  }

  ghost predicate NoLeft(posted: seq<Posted>) { forall i :: 0 <= i < |posted| ==> !IsLeft(posted[i]) }

  lemma {:induction false} PostOthers(posted: seq<Posted>, more: seq<Posted>)
    requires Proper(posted) && NoLeft(more)
    ensures Held(posted + more) == Held(posted) && Proper(posted + more)
  {
    if more == [] {
      assert posted + more == posted;
    } else {
      var init, last := more[..|more| - 1], more[|more| - 1];
      PostOthers(posted, init);
      PostOne(posted + init, last);
      assert posted + more == posted + init + [last];
    }
  }

  lemma {:induction false} WheelsHaveNoLeft(at: Point, delta: int, count: nat)
    ensures NoLeft(Wheels(at, delta, count)) && |Wheels(at, delta, count)| == count
  {
    if count > 0 { WheelsHaveNoLeft(at, delta, count - 1); }
  }

  // ---------------------------------------------------------------- the invariant

  /** The button is down exactly while the gesture is resolved into a drag; a drag has one finger,
      its own; and only a timer of this gesture and generation can still press, for its one finger. */
  ghost predicate Inv(g: Gesture) {
    && Proper(g.posted) && Held(g.posted) == g.resolved
    && (g.resolved ==> |g.downs| == 1 && g.downs[0].id == g.drag)
    && (!g.resolved ==> g.peak == |g.downs|)
    && (forall t :: t in g.timers ==> t.generation <= g.generation)
    && (forall t :: t in g.timers && t.generation == g.generation ==> |g.downs| == 1 && g.downs[0].id == t.finger && t.gesture == g.gestures)
  }

  lemma ResetKeepsInv(g: Gesture, up: bool, at: Point)
    requires Inv(g) && (up <==> g.resolved)
    ensures Inv(Reset(if up then g.(posted := g.posted + [LeftUp(at)]) else g))
  {
    if up { PostOne(g.posted, LeftUp(at)); }
  }

  lemma {:induction false} AddDownsGrows(downs: seq<Touch>, touches: seq<Touch>)
    ensures downs <= AddDowns(downs, touches)
    ensures forall i :: 0 <= i < |touches| ==> Has(AddDowns(downs, touches), touches[i].id)
  {
    if touches != [] {
      var n := |touches| - 1;
      AddDownsGrows(downs, touches[..n]);
      var before, after := AddDowns(downs, touches[..n]), AddDowns(downs, touches);
      forall i | 0 <= i < |touches| ensures Has(after, touches[i].id) {
        if i < n {
          assert touches[..n][i] == touches[i];
          var j :| 0 <= j < |before| && before[j].id == touches[i].id;
          assert after[j] == before[j];
        } else if !Has(before, touches[n].id) {
          assert after[|before|].id == touches[n].id;
        }
      }
    }
  }

  lemma BeganKeepsInv(g: Gesture, touches: seq<Touch>)
    requires Inv(g)
    ensures Inv(Began(g, touches))
  {
    hide Held, Proper;
    if !g.resolved {
      AddDownsGrows(g.downs, touches);
      var downs := AddDowns(g.downs, touches);
      if |downs| == 1 && touches != [] {
        assert Has(downs, touches[0].id);
        PostOne(g.posted, CursorMove(touches[0].at));
      }
    }
  }

  lemma CommitKeepsInv(g: Gesture, finger: nat)
    requires Inv(g) && !g.resolved && |g.downs| == 1 && g.downs[0].id == finger
    ensures Inv(CommitDrag(g, finger))
  {
    hide Held, Proper;
    PostOne(g.posted, LeftDown(g.first));
  }

  lemma MoveOneKeepsInv(g: Gesture, t: Touch)
    requires Inv(g)
    ensures Inv(MoveOne(g, t)) && MoveOne(g, t).gestures == g.gestures
  {
    hide Held, Proper;
    if Has(g.downs, t.id) {
      if g.resolved {
        PostOne(g.posted, LeftMove(t.at));
      } else if |g.downs| == 1 && Far(t.at, DownOf(g.downs, t.id)) {
        CommitKeepsInv(g.(slopBroken := true), t.id);
        PostOne(CommitDrag(g.(slopBroken := true), t.id).posted, LeftMove(t.at));
      }
    }
  }

  lemma {:induction false} MoveAllKeepsInv(g: Gesture, touches: seq<Touch>)
    requires Inv(g)
    ensures Inv(MoveAll(g, touches)) && MoveAll(g, touches).gestures == g.gestures
  {
    hide Inv, MoveOne;
    if touches != [] {
      MoveAllKeepsInv(g, touches[..|touches| - 1]);
      MoveOneKeepsInv(MoveAll(g, touches[..|touches| - 1]), touches[|touches| - 1]);
    }
  }

  /** What two moving fingers post: wheel steps only. */
  lemma ScrollPosts(g: Gesture, active: seq<Touch>) returns (more: seq<Posted>)
    requires |active| == 2
    ensures Scrolled(g, active).posted == g.posted + more && NoLeft(more)
  {
    var after := Scrolled(g, active);
    var middle := Average(active);
    var travel := g.scroll + (middle.y - if g.lastY == 0.0 then middle.y else g.lastY);
    more := Wheels(middle, -120, NotchesDown(travel)) + Wheels(middle, 120, NotchesUp(travel));
    WheelsHaveNoLeft(middle, -120, NotchesDown(travel));
    WheelsHaveNoLeft(middle, 120, NotchesUp(travel));
    assert after.posted == g.posted + more;
  }

  lemma MovedKeepsInv(g: Gesture, touches: seq<Touch>, active: seq<Touch>)
    requires Inv(g)
    ensures Inv(Moved(g, touches, active)) && Moved(g, touches, active).gestures == g.gestures
  {
    if !g.resolved && |g.downs| == 2 && |active| == 2 {
      hide Wheels, NotchesUp, NotchesDown, Held, Proper, Average;
      var more := ScrollPosts(g, active);
      PostOthers(g.posted, more);
    } else {
      MoveAllKeepsInv(g, touches);
    }
  }

  lemma TapKeepsInv(g: Gesture)
    requires Inv(g) && !g.resolved
    ensures Inv(Reset(g).(posted := g.posted + if g.slopBroken then [] else Click(g.peak, Midpoint(g.downs, g.first))))
  {
    hide Held, Proper, Midpoint;
    var at := Midpoint(g.downs, g.first);
    ResetKeepsInv(g, false, at);
    if g.slopBroken || g.peak == 0 || g.peak > 3 {
      assert g.posted + [] == g.posted;
    } else if g.peak == 1 {
      PostOne(g.posted, LeftDown(at));
      PostOne(g.posted + [LeftDown(at)], LeftUp(at));
      assert g.posted + [LeftDown(at), LeftUp(at)] == g.posted + [LeftDown(at)] + [LeftUp(at)];
    } else {
      PostOthers(g.posted, Click(g.peak, at));
    }
  }

  lemma NextKeepsInv(g: Gesture, e: Event)
    requires Inv(g)
    ensures Inv(Next(g, e))
  {
    hide Held, Proper, Midpoint, Click, Reset, Began, Moved, DownOf, Inv, CommitDrag;
    match e
    case Begin(touches) => BeganKeepsInv(g, touches);
    case Move(touches, active) => MovedKeepsInv(g, touches, active);
    case End(touches, active) =>
      if g.resolved && Has(touches, g.drag) { ResetKeepsInv(g, true, DownOf(touches, g.drag)); }
      if !g.resolved { TapKeepsInv(g); }
    case Cancel(touches) =>
      if g.resolved && Has(touches, g.drag) { ResetKeepsInv(g, true, DownOf(touches, g.drag)); }
      if !g.resolved { ResetKeepsInv(g, false, ORIGIN); }
    case Fire(timer) => if timer in g.timers { FireKeepsInv(g, timer); }
  }

  lemma FireKeepsInv(g: Gesture, timer: Timer)
    requires Inv(g) && timer in g.timers
    ensures Inv(Fired(g, timer))
  {
    hide Held, Proper;
    if g.generation == timer.generation && !g.resolved && |g.downs| == 1 { CommitKeepsInv(g, timer.finger); }
  }

  /** In every run the left button is down exactly while a drag is resolved, downs and ups of the
      button alternate, and it moves only while it is down. */
  lemma {:induction false} ButtonFollowsDrag(events: seq<Event>)
    ensures Inv(After(START, events))
    ensures Held(After(START, events).posted) == After(START, events).resolved && Proper(After(START, events).posted)
  {
    hide Next;
    if events != [] {
      ButtonFollowsDrag(events[..|events| - 1]);
      NextKeepsInv(After(START, events[..|events| - 1]), events[|events| - 1]);
    }
  }

  // ---------------------------------------------------------------- hold timers

  /** A hold timer presses only in the gesture that started it, for the one finger that did, and
      where that finger went down; a timer of an earlier gesture does nothing. */
  lemma TimerPressesItsOwnGesture(g: Gesture, timer: Timer)
    requires Inv(g) && timer in g.timers
    ensures Next(g, Fire(timer)) != g ==>
      && timer.gesture == g.gestures && timer.generation == g.generation
      && !g.resolved && |g.downs| == 1 && g.downs[0].id == timer.finger
      && Next(g, Fire(timer)) == g.(resolved := true, drag := timer.finger, posted := g.posted + [LeftDown(g.first)])
    ensures timer.gesture < g.gestures ==> Next(g, Fire(timer)) == g
  {
    hide Held, Proper;
  }

  // ---------------------------------------------------------------- several fingers

  /** Two or more fingers joined before the gesture became a drag. */
  predicate Several(g: Gesture) { !g.resolved && |g.downs| >= 2 }

  lemma MoveOneOfSeveral(g: Gesture, t: Touch)
    requires Several(g)
    ensures Several(MoveOne(g, t)) && MoveOne(g, t).posted == g.posted && MoveOne(g, t).gestures == g.gestures
  {
  }

  lemma {:induction false} MoveAllOfSeveral(g: Gesture, touches: seq<Touch>)
    requires Several(g)
    ensures Several(MoveAll(g, touches)) && MoveAll(g, touches).posted == g.posted && MoveAll(g, touches).gestures == g.gestures
  {
    hide MoveOne;
    if touches != [] {
      MoveAllOfSeveral(g, touches[..|touches| - 1]);
      MoveOneOfSeveral(MoveAll(g, touches[..|touches| - 1]), touches[|touches| - 1]);
    }
  }

  /** Any callback of such a gesture posts no left-button event; it goes on with several fingers, or
      it ends. */
  lemma SeveralFingersPostNoLeft(g: Gesture, e: Event) returns (more: seq<Posted>)
    requires Inv(g) && Several(g)
    ensures Next(g, e).posted == g.posted + more && NoLeft(more)
    ensures Next(g, e).gestures == g.gestures ==> Several(Next(g, e))
    ensures g.gestures <= Next(g, e).gestures <= g.gestures + 1
  {
    hide Midpoint, Wheels, NotchesUp, NotchesDown, Average, Held, Proper;
    more := [];
    assert g.posted + [] == g.posted;
    match e
    case Begin(touches) => AddDownsGrows(g.downs, touches);
    case Move(touches, active) =>
      if |g.downs| == 2 && |active| == 2 { more := ScrollPosts(g, active); } else { MoveAllOfSeveral(g, touches); }
    case End(touches, active) =>
      if active == [] && !g.slopBroken { more := Click(g.peak, Midpoint(g.downs, g.first)); }
    case Cancel(touches) =>
    case Fire(timer) =>
  }

  /** So once a second finger has joined, no left-button event happens until the gesture ends. */
  lemma {:induction false} NoLeftUntilReset(g: Gesture, events: seq<Event>) returns (more: seq<Posted>)
    requires Inv(g) && Several(g) && After(g, events).gestures == g.gestures
    ensures After(g, events).posted == g.posted + more && NoLeft(more)
    ensures Inv(After(g, events)) && Several(After(g, events))
  {
    hide Next, Inv, Several;
    more := [];
    assert g.posted + [] == g.posted;
    if events != [] {
      var init, e := events[..|events| - 1], events[|events| - 1];
      GesturesGrow(g, init);
      GesturesGrowOne(After(g, init), e);
      var before := NoLeftUntilReset(g, init);
      NextKeepsInv(After(g, init), e);
      var own := SeveralFingersPostNoLeft(After(g, init), e);
      more := before + own;
      assert g.posted + more == g.posted + before + own;
    }
  }

  lemma {:induction false} MoveAllSameGesture(g: Gesture, touches: seq<Touch>)
    ensures MoveAll(g, touches).gestures == g.gestures
  {
    if touches != [] { MoveAllSameGesture(g, touches[..|touches| - 1]); }
  }

  lemma GesturesGrowOne(g: Gesture, e: Event)
    ensures g.gestures <= Next(g, e).gestures
  {
    hide Midpoint, Wheels, NotchesUp, NotchesDown, Average, AddDowns, DownOf;
    if e.Move? { MoveAllSameGesture(g, e.touches); }
  }

  lemma {:induction false} GesturesGrow(g: Gesture, events: seq<Event>)
    ensures g.gestures <= After(g, events).gestures
  {
    hide Next;
    if events != [] {
      GesturesGrow(g, events[..|events| - 1]);
      GesturesGrowOne(After(g, events[..|events| - 1]), events[|events| - 1]);
    }
  }

  // ---------------------------------------------------------------- the wheel

  /** What the wheel was turned by in all, 120 to a step. */
  function Notches(posted: seq<Posted>): int {
    if posted == [] then 0
    else
      var last := posted[|posted| - 1];
      Notches(posted[..|posted| - 1]) + if last.Wheel? then last.delta else 0
  }

  lemma {:induction false} NotchesConcat(a: seq<Posted>, b: seq<Posted>)
    ensures Notches(a + b) == Notches(a) + Notches(b)
  {
    if b == [] {
      assert a + b == a;
    } else {
      NotchesConcat(a, b[..|b| - 1]);
      assert (a + b)[..|a + b| - 1] == a + b[..|b| - 1];
    }
  }

  lemma {:induction false} NotchesOfWheels(at: Point, delta: int, count: nat)
    ensures Notches(Wheels(at, delta, count)) == delta * count
  {
    if count > 0 {
      NotchesOfWheels(at, delta, count - 1);
      assert Wheels(at, delta, count)[..|Wheels(at, delta, count)| - 1] == Wheels(at, delta, count - 1);
    }
  }

  /** The travel that is in the wheel steps, at 14 points each, or still waits. */
  function Travelled(g: Gesture): real { g.scroll + 14.0 * Notches(g.posted) as real / 120.0 }

  lemma ScrollTravels(g: Gesture, active: seq<Touch>)
    requires |active| == 2
    ensures var after := Scrolled(g, active);
      && -14.0 < after.scroll < 14.0
      && Travelled(after) == Travelled(g) + if g.lastY == 0.0 then 0.0 else Average(active).y - g.lastY
  {
    hide Average, Wheels, Notches;
    var after := Scrolled(g, active);
    var middle := Average(active);
    var travel := g.scroll + (middle.y - if g.lastY == 0.0 then middle.y else g.lastY);
    var up, down := NotchesUp(travel), NotchesDown(travel);
    NotchesConcat(g.posted, Wheels(middle, -120, down));
    NotchesConcat(g.posted + Wheels(middle, -120, down), Wheels(middle, 120, up));
    NotchesOfWheels(middle, -120, down);
    NotchesOfWheels(middle, 120, up);
    assert Notches(after.posted) == Notches(g.posted) - 120 * down + 120 * up;
  }

  /** Two fingers are down and nothing has moved them yet. */
  predicate FreshPair(g: Gesture) { !g.resolved && |g.downs| == 2 && g.lastY == 0.0 }

  /** Moves of two fingers, and the heights of their middles. */
  predicate AreScrolls(events: seq<Event>) { forall i :: 0 <= i < |events| ==> events[i].Move? && |events[i].active| == 2 }

  function Middles(events: seq<Event>): (ys: seq<real>)
    requires AreScrolls(events)
    ensures |ys| == |events|
  {
    seq(|events|, i requires 0 <= i < |events| => Average(events[i].active).y)
  }

  /** A height of 0 doubles as "no last point": the step that starts there is not counted. */
  function Lost(ys: seq<real>): real {
    if |ys| < 2 then 0.0 else Lost(ys[..|ys| - 1]) + if ys[|ys| - 2] == 0.0 then ys[|ys| - 1] else 0.0
  }

  /** Over a run of two-finger moves the wheel gets the whole travel from the first middle to the last,
      but for the steps that start at height 0, and less than a step of 14 points waits. */
  lemma {:induction false} TravelIsConserved(g: Gesture, events: seq<Event>)
    requires FreshPair(g) && AreScrolls(events) && events != []
    ensures var after, ys := After(g, events), Middles(events);
      && !after.resolved && |after.downs| == 2 && after.lastY == ys[|ys| - 1]
      && -14.0 < after.scroll < 14.0
      && Travelled(after) == Travelled(g) + (ys[|ys| - 1] - ys[0]) - Lost(ys)
  {
    hide Average, Travelled;
    var n := |events| - 1;
    var ys := Middles(events);
    var before := After(g, events[..n]);
    assert Middles(events[..n]) == ys[..n];
    if n > 0 { TravelIsConserved(g, events[..n]); }
    ScrollTravels(before, events[n].active);
  }

  /** So every move of a run gives the wheel its whole travel exactly when no step leaves height 0. */
  lemma NoStepIsLost(g: Gesture, events: seq<Event>)
    requires FreshPair(g) && AreScrolls(events)
    ensures var ys := Middles(events);
      (forall n :: 0 < n <= |events| ==> Travelled(After(g, events[..n])) == Travelled(g) + (ys[n - 1] - ys[0]))
        <==> forall k :: 0 <= k < |ys| - 1 && ys[k] == 0.0 ==> ys[k + 1] == 0.0
  {
    hide Average, Travelled, After;
    var ys := Middles(events);
    forall n | 0 < n <= |events|
      ensures Travelled(After(g, events[..n])) == Travelled(g) + (ys[n - 1] - ys[0]) <==> Lost(ys[..n]) == 0.0
    {
      assert Middles(events[..n]) == ys[..n];
      TravelIsConserved(g, events[..n]);
    }
    LostSteps(ys);
  }

  lemma {:induction false} LostSteps(ys: seq<real>)
    ensures (forall n :: 0 < n <= |ys| ==> Lost(ys[..n]) == 0.0)
      <==> forall k :: 0 <= k < |ys| - 1 && ys[k] == 0.0 ==> ys[k + 1] == 0.0
  {
    if |ys| > 1 {
      var m := |ys| - 1;
      var init := ys[..m];
      LostSteps(init);
      assert forall n :: 0 <= n <= m ==> init[..n] == ys[..n];
      assert ys[..|ys|] == ys;
      assert Lost(ys) == Lost(init) + if ys[m - 1] == 0.0 then ys[m] else 0.0;
      assert (forall n :: 0 < n <= |ys| ==> Lost(ys[..n]) == 0.0) ==> Lost(ys[..m]) == 0.0;
    }
  }

  /** Two fingers side by side at a height. */
  function PairAt(y: real): Event { Move([], [Touch(0, Point(0.0, y)), Touch(1, Point(0.0, y))]) }

  lemma MiddleOfTwo(a: Touch, b: Touch)
    ensures Average([a, b]).y == (a.at.y + b.at.y) / 2.0
  {
    assert [a][..0] == [] && [a, b][..1] == [a];
    assert SumOf([a]).y == SumOf([]).y + a.at.y == a.at.y;
    assert SumOf([a, b]).y == SumOf([a]).y + b.at.y;
  }

  /** The wheel gets 5 points back and nothing of the 100 that follow: the middle passed height 0. */
  lemma ZeroHeightLosesTravel(g: Gesture)
    requires FreshPair(g)
    ensures Travelled(After(g, [PairAt(5.0), PairAt(0.0), PairAt(100.0)])) == Travelled(g) - 5.0
  {
    hide Travelled, After;
    var events := [PairAt(5.0), PairAt(0.0), PairAt(100.0)];
    TravelIsConserved(g, events);
    forall y: real ensures Average(PairAt(y).active).y == y {
      MiddleOfTwo(PairAt(y).active[0], PairAt(y).active[1]);
    }
    var ys := Middles(events);
    assert ys == [5.0, 0.0, 100.0];
    assert ys[..2] == [5.0, 0.0] && [5.0, 0.0][..1] == [5.0];
    assert Lost(ys) == Lost([5.0, 0.0]) + 100.0;
  }

  // ---------------------------------------------------------------- what scrolling posts, and what it does not click

  /** A wheel step of the size Windows knows, at a point. */
  predicate IsStep(p: Posted, at: Point) { p.Wheel? && p.at == at && (p.delta == 120 || p.delta == -120) }

  lemma {:induction false} WheelsAreSteps(at: Point, delta: int, count: nat)
    requires delta == 120 || delta == -120
    ensures forall i :: 0 <= i < |Wheels(at, delta, count)| ==> IsStep(Wheels(at, delta, count)[i], at)
  {
    if count > 0 { WheelsAreSteps(at, delta, count - 1); }
  }

  /** A move of two fingers posts whole wheel steps between them and nothing else. */
  lemma ScrollPostsSteps(g: Gesture, active: seq<Touch>)
    requires |active| == 2
    ensures var at, after := Point((active[0].at.x + active[1].at.x) / 2.0, (active[0].at.y + active[1].at.y) / 2.0), Scrolled(g, active).posted;
      g.posted <= after && forall i :: |g.posted| <= i < |after| ==> IsStep(after[i], at)
  {
    hide Wheels, NotchesUp, NotchesDown, Average, IsStep;
    var middle := Average(active);
    var travel := g.scroll + (middle.y - if g.lastY == 0.0 then middle.y else g.lastY);
    WheelsAreSteps(middle, -120, NotchesDown(travel));
    WheelsAreSteps(middle, 120, NotchesUp(travel));
    PairMiddle(active);
  }

  lemma PairMiddle(active: seq<Touch>)
    requires |active| == 2
    ensures Average(active) == Point((active[0].at.x + active[1].at.x) / 2.0, (active[0].at.y + active[1].at.y) / 2.0)
  {
    assert active[..1][..0] == [];
    assert SumOf(active[..1]) == Point(SumOf([]).x + active[0].at.x, SumOf([]).y + active[0].at.y);
    assert SumOf(active) == Point(SumOf(active[..1]).x + active[1].at.x, SumOf(active[..1]).y + active[1].at.y);
  }

  lemma {:induction false} BrokenStays(g: Gesture, events: seq<Event>)
    requires FreshPair(g) && AreScrolls(events) && g.slopBroken
    ensures After(g, events).slopBroken && !After(g, events).resolved && |After(g, events).downs| == 2
  {
    hide Average, Wheels, NotchesUp, NotchesDown;
    if events != [] { BrokenStays(g, events[..|events| - 1]); }
  }

  /** A counted step of more than 2 points. */
  predicate LongStep(ys: seq<real>, k: int) {
    0 <= k < |ys| - 1 && ys[k] != 0.0 && (ys[k + 1] - ys[k] > 2.0 || ys[k + 1] - ys[k] < -2.0)
  }

  lemma LongSteps(ys: seq<real>)
    requires ys != []
    ensures var n := |ys| - 1; (exists k :: LongStep(ys, k)) <==> (exists k :: LongStep(ys[..n], k)) || LongStep(ys, n - 1)
  {
    var n := |ys| - 1;
    forall k ensures k != n - 1 ==> (LongStep(ys, k) <==> LongStep(ys[..n], k)) {}
    assert !LongStep(ys[..n], n - 1);
  }

  lemma ScrollBreaks(g: Gesture, active: seq<Touch>)
    requires |active| == 2
    ensures var dy, after := Average(active).y - g.lastY, Scrolled(g, active);
      && after.resolved == g.resolved && after.downs == g.downs && after.lastY == Average(active).y
      && (after.slopBroken <==> g.slopBroken || (g.lastY != 0.0 && (dy > 2.0 || dy < -2.0)))
  {
    hide Average, Wheels, NotchesUp, NotchesDown;
  }

  /** Over a run of two-finger moves the gesture is a scroll, and no tap any more, exactly when one of
      its counted steps is of more than 2 points. */
  lemma {:induction false} ScrollsAreNoTaps(g: Gesture, events: seq<Event>)
    requires FreshPair(g) && AreScrolls(events) && !g.slopBroken
    ensures var after := After(g, events);
      !after.resolved && |after.downs| == 2 && (after.slopBroken <==> exists k :: LongStep(Middles(events), k))
  {
    hide Average, Scrolled, Travelled;
    if events != [] {
      var n := |events| - 1;
      var ys, before := Middles(events), After(g, events[..n]);
      assert Middles(events[..n]) == ys[..n];
      ScrollsAreNoTaps(g, events[..n]);
      if n > 0 { TravelIsConserved(g, events[..n]); }
      ScrollBreaks(before, events[n].active);
      LongSteps(ys);
      assert n == 0 ==> before == g && !LongStep(ys, n - 1);
    } else {
      assert forall k :: !LongStep(Middles(events), k);
    }
  }

  /** A gesture that left the slop clicks nothing when its last finger lifts. */
  lemma BrokenClicksNothing(g: Gesture, lifted: seq<Touch>)
    requires !g.resolved && g.slopBroken
    ensures Next(g, End(lifted, [])).posted == g.posted
  {
  }

  /** One of several fingers that leaves the slop makes the gesture no tap any more. */
  lemma FarFingerBreaks(g: Gesture, t: Touch, active: seq<Touch>)
    requires !g.resolved && |g.downs| >= 2 && (|g.downs| != 2 || |active| != 2) && Has(g.downs, t.id)
    requires var down := DownOf(g.downs, t.id); (t.at.x - down.x) * (t.at.x - down.x) + (t.at.y - down.y) * (t.at.y - down.y) > 100.0
    ensures Next(g, Move([t], active)) == g.(slopBroken := true)
  {
    assert [t][..0] == [] && MoveAll(g, []) == g;
    assert MoveAll(g, [t]) == MoveOne(g, t);
  }
}
