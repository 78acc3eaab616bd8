/** What whole gestures of the touch pointer become: taps of one, two and three fingers click, a finger
    that travels drags, a finger that stays presses. */
module TouchGestures {
  import opened TouchPointer

  /** Between two gestures. */
  predicate Idle(g: Gesture) { !g.resolved && g.downs == [] && g.peak == 0 && !g.slopBroken }

  lemma ResetIsIdle(g: Gesture)
    ensures Idle(Reset(g))
  {
  }

  lemma AfterOne(g: Gesture, events: seq<Event>, e: Event)
    ensures After(g, events + [e]) == Next(After(g, events), e)
  {
    assert (events + [e])[..|events|] == events;
  }

  lemma {:induction false} AfterConcat(g: Gesture, a: seq<Event>, b: seq<Event>)
    ensures After(g, a + b) == After(After(g, a), b)
  {
    hide Next;
    if b == [] {
      assert a + b == a;
    } else {
      AfterConcat(g, a, b[..|b| - 1]);
      assert (a + b)[..|a + b| - 1] == a + b[..|b| - 1];
    }
  }

  // ---------------------------------------------------------------- fingers go down

  /** Fingers that are told apart. */
  predicate Apart(fingers: seq<Touch>) { forall i, j :: 0 <= i < j < |fingers| ==> fingers[i].id != fingers[j].id }

  /** The fingers go down one after the other. */
  function Begins(fingers: seq<Touch>): seq<Event> {
    if fingers == [] then [] else Begins(fingers[..|fingers| - 1]) + [Begin([fingers[|fingers| - 1]])]
  }

  /** The fingers are down, and nothing else has happened. */
  ghost predicate Down(g: Gesture, start: Gesture, fingers: seq<Touch>) {
    && fingers != [] && !g.resolved && !g.slopBroken && g.downs == fingers && g.peak == |fingers| && g.first == fingers[0].at
    && g.posted == start.posted + [CursorMove(fingers[0].at)]
  }

  lemma AddOne(downs: seq<Touch>, t: Touch)
    requires !Has(downs, t.id)
    ensures AddDowns(downs, [t]) == downs + [t]
  {
    assert [t][..0] == [] && AddDowns(downs, []) == downs;
  }

  lemma FirstDown(g: Gesture, t: Touch)
    requires Idle(g)
    ensures Down(Next(g, Begin([t])), g, [t])
  {
    AddOne(g.downs, t);
    hide AddDowns;
    assert [] + [t] == [t];
  }

  lemma NextDown(g: Gesture, start: Gesture, fingers: seq<Touch>, t: Touch)
    requires Down(g, start, fingers) && !Has(fingers, t.id)
    ensures Down(Next(g, Begin([t])), start, fingers + [t])
  {
    AddOne(g.downs, t);
    hide AddDowns;
  }

  lemma {:induction false} FingersGoDown(g: Gesture, fingers: seq<Touch>)
    requires Idle(g) && Apart(fingers) && fingers != []
    ensures Down(After(g, Begins(fingers)), g, fingers)
  {
    hide Next, Down, Idle;
    var n := |fingers| - 1;
    var init, last := fingers[..n], fingers[n];
    AfterOne(g, Begins(init), Begin([last]));
    assert fingers == init + [last];
    if n > 0 {
      FingersGoDown(g, init);
      assert !Has(init, last.id);
      NextDown(After(g, Begins(init)), g, init, last);
    } else {
      assert After(g, Begins(init)) == g;
      FirstDown(g, last);
    }
  }

  // ---------------------------------------------------------------- taps

  /** A move in which no finger leaves the slop around where it went down, of other than two fingers. */
  predicate IsSmall(e: Event, fingers: seq<Touch>) {
    && e.Move? && (|fingers| != 2 || |e.active| != 2)
    && forall i, k :: 0 <= i < |e.touches| && 0 <= k < |fingers| && e.touches[i].id == fingers[k].id ==> Near(e.touches[i].at, fingers[k].at)
  }

  /** At most 10 points apart. */
  predicate Near(a: Point, b: Point) { (a.x - b.x) * (a.x - b.x) + (a.y - b.y) * (a.y - b.y) <= 100.0 }

  lemma {:induction false} DownOfIs(fingers: seq<Touch>, k: nat)
    requires Apart(fingers) && k < |fingers|
    ensures Has(fingers, fingers[k].id) && DownOf(fingers, fingers[k].id) == fingers[k].at
  {
    if k > 0 {
      DownOfIs(fingers[1..], k - 1);
      assert fingers[0].id != fingers[k].id;
    }
  }

  lemma {:induction false} SmallMovesAll(g: Gesture, touches: seq<Touch>)
    requires !g.resolved && Apart(g.downs)
    requires forall i, k :: 0 <= i < |touches| && 0 <= k < |g.downs| && touches[i].id == g.downs[k].id ==> Near(touches[i].at, g.downs[k].at)
    ensures MoveAll(g, touches) == g
  {
    if touches != [] {
      var n := |touches| - 1;
      SmallMovesAll(g, touches[..n]);
      if Has(g.downs, touches[n].id) {
        var k :| 0 <= k < |g.downs| && g.downs[k].id == touches[n].id;
        DownOfIs(g.downs, k);
      }
    }
  }

  lemma {:induction false} SmallMovesChangeNothing(g: Gesture, moves: seq<Event>)
    requires !g.resolved && Apart(g.downs) && forall i :: 0 <= i < |moves| ==> IsSmall(moves[i], g.downs)
    ensures After(g, moves) == g
  {
    if moves != [] {
      var n := |moves| - 1;
      SmallMovesChangeNothing(g, moves[..n]);
      var e := moves[n];
      assert IsSmall(e, g.downs);
      SmallMovesAll(g, e.touches);
    }
  }

  /** The middle of some fingers. */
  function Middle(fingers: seq<Touch>): Point
    requires 1 <= |fingers| <= 3
  {
    if |fingers| == 1 then fingers[0].at
    else if |fingers| == 2 then Point((fingers[0].at.x + fingers[1].at.x) / 2.0, (fingers[0].at.y + fingers[1].at.y) / 2.0)
    else Point((fingers[0].at.x + fingers[1].at.x + fingers[2].at.x) / 3.0, (fingers[0].at.y + fingers[1].at.y + fingers[2].at.y) / 3.0)
  }

  lemma MiddleIs(fingers: seq<Touch>, first: Point)
    requires 1 <= |fingers| <= 3
    ensures Midpoint(fingers, first) == Middle(fingers)
  {
    SumsAre(fingers);
  }

  lemma SumsAre(fingers: seq<Touch>)
    requires 1 <= |fingers| <= 3
    ensures SumOf(fingers).x == fingers[0].at.x + (if |fingers| > 1 then fingers[1].at.x else 0.0) + (if |fingers| > 2 then fingers[2].at.x else 0.0)
    ensures SumOf(fingers).y == fingers[0].at.y + (if |fingers| > 1 then fingers[1].at.y else 0.0) + (if |fingers| > 2 then fingers[2].at.y else 0.0)
  {
    var a := fingers[..1];
    assert a[..0] == [] && SumOf(a) == Point(ORIGIN.x + fingers[0].at.x, ORIGIN.y + fingers[0].at.y);
    if |fingers| > 1 {
      var b := fingers[..2];
      assert b[..1] == a && SumOf(b) == Point(SumOf(a).x + fingers[1].at.x, SumOf(a).y + fingers[1].at.y);
      if |fingers| > 2 { assert fingers[..2] == b; } else { assert fingers == b; }
    } else {
      assert fingers == a;
    }
  }

  /** One finger that goes down and up again without leaving the slop clicks left where it went down,
      two click right in their middle, three click the middle button there, more click nothing. */
  lemma TapsClick(g: Gesture, fingers: seq<Touch>, moves: seq<Event>, lifted: seq<Touch>)
    requires Idle(g) && Apart(fingers) && fingers != [] && forall i :: 0 <= i < |moves| ==> IsSmall(moves[i], fingers)
    ensures var after := After(g, Begins(fingers) + moves + [End(lifted, [])]);
      && Idle(after)
      && after.posted == g.posted + [CursorMove(fingers[0].at)] +
        if |fingers| == 1 then [LeftDown(fingers[0].at), LeftUp(fingers[0].at)]
        else if |fingers| == 2 then [RightClick(Middle(fingers))]
        else if |fingers| == 3 then [MiddleClick(Middle(fingers))]
        else []
  {
    hide Next, After, Midpoint;
    FingersGoDown(g, fingers);
    var down := After(g, Begins(fingers));
    AfterConcat(g, Begins(fingers), moves);
    SmallMovesChangeNothing(down, moves);
    AfterOne(g, Begins(fingers) + moves, End(lifted, []));
    if |fingers| <= 3 { MiddleIs(fingers, down.first); }
    Lifted(down, lifted);
  }

  lemma Lifted(g: Gesture, lifted: seq<Touch>)
    requires !g.resolved && !g.slopBroken
    ensures Next(g, End(lifted, [])) == Reset(g).(posted := g.posted + Click(g.peak, Midpoint(g.downs, g.first)))
  {
  }

  // ---------------------------------------------------------------- one finger

  /** One finger moves along a path. */
  function Along(id: nat, path: seq<Point>): seq<Event> {
    if path == [] then []
    else
      var t := Touch(id, path[|path| - 1]);
      Along(id, path[..|path| - 1]) + [Move([t], [t])]
  }

  function Moves(path: seq<Point>): (r: seq<Posted>)
    ensures |r| == |path| && forall i :: 0 <= i < |r| ==> r[i] == LeftMove(path[i])
  {
    seq(|path|, i requires 0 <= i < |path| => LeftMove(path[i]))
  }

  /** A drag of one finger is under way. */
  ghost predicate Dragging(g: Gesture, id: nat) { g.resolved && g.drag == id && Has(g.downs, id) }

  lemma OneTouch(g: Gesture, t: Touch)
    ensures MoveAll(g, [t]) == MoveOne(g, t)
  {
    hide MoveOne;
    assert [t][..0] == [] && MoveAll(g, []) == g;
  }

  lemma DragMove(g: Gesture, t: Touch)
    requires Dragging(g, t.id)
    ensures Next(g, Move([t], [t])) == g.(posted := g.posted + [LeftMove(t.at)])
  {
    OneTouch(g, t);
    hide MoveAll;
  }

  lemma {:induction false} DragMoves(g: Gesture, id: nat, path: seq<Point>)
    requires Dragging(g, id)
    ensures After(g, Along(id, path)) == g.(posted := g.posted + Moves(path))
  {
    hide Next, Dragging, Moves;
    if path == [] {
      NoMoves();
      assert g.posted + [] == g.posted;
    } else {
      hide Along, After;
      var n := |path| - 1;
      var t := Touch(id, path[n]);
      DragMoves(g, id, path[..n]);
      AlongLast(id, path);
      AfterOne(g, Along(id, path[..n]), Move([t], [t]));
      StillDragging(g, g.posted + Moves(path[..n]), id);
      DragMove(g.(posted := g.posted + Moves(path[..n])), t);
      MovesLast(path);
      OneMorePosted(g.posted, Moves(path[..n]), LeftMove(path[n]));
    }
  }

  lemma NoMoves()
    ensures Moves([]) == []
  {
  }

  lemma AlongLast(id: nat, path: seq<Point>)
    requires path != []
    ensures var n := |path| - 1; var t := Touch(id, path[n]); Along(id, path) == Along(id, path[..n]) + [Move([t], [t])]
  {
  }

  lemma MovesLast(path: seq<Point>)
    requires path != []
    ensures Moves(path) == Moves(path[..|path| - 1]) + [LeftMove(path[|path| - 1])]
  {
  }

  lemma OneMorePosted(a: seq<Posted>, b: seq<Posted>, p: Posted)
    ensures a + b + [p] == a + (b + [p])
  {
  }

  lemma StillDragging(g: Gesture, posted: seq<Posted>, id: nat)
    requires Dragging(g, id)
    ensures Dragging(g.(posted := posted), id)
  {
  }

  lemma OneFingerDown(g: Gesture, t: Touch)
    requires Idle(g)
    ensures After(g, [Begin([t])]) == Next(g, Begin([t])) && Down(Next(g, Begin([t])), g, [t])
    ensures Next(g, Begin([t])).generation == g.generation + 1 && Timer(g.generation + 1, t.id, g.gestures) in Next(g, Begin([t])).timers
  {
    OneEvent(g, Begin([t]));
    FirstDown(g, t);
    AddOne([], t);
    hide AddDowns;
    assert [] + [t] == [t];
  }

  /** A finger that travels farther than the slop drags: the button goes down where it went down, moves
      with it, and goes up where it lifts. */
  lemma TravelDrags(g: Gesture, t: Touch, path: seq<Point>, up: Point)
    requires Idle(g) && path != [] && !Near(path[0], t.at)
    ensures var after := After(g, [Begin([t])] + Along(t.id, path) + [End([Touch(t.id, up)], [])]);
      Idle(after) && after.posted == g.posted + [CursorMove(t.at), LeftDown(t.at)] + Moves(path) + [LeftUp(up)]
  {
    hide After, Next, Reset, Idle, Dragging;
    OneFingerDown(g, t);
    var down := Next(g, Begin([t]));
    AfterConcat(g, [Begin([t])], Along(t.id, path));
    var moved := PathDrags(down, t, path);
    AfterOne(g, [Begin([t])] + Along(t.id, path), End([Touch(t.id, up)], []));
    DragLifts(moved, t.id, up);
    assert g.posted + [CursorMove(t.at)] + ([LeftDown(t.at)] + Moves(path)) + [LeftUp(up)]
      == g.posted + [CursorMove(t.at), LeftDown(t.at)] + Moves(path) + [LeftUp(up)];
  }

  /** A finger that is down moves along a path that leaves the slop at once. */
  lemma PathDrags(g: Gesture, t: Touch, path: seq<Point>) returns (moved: Gesture)
    requires !g.resolved && g.downs == [t] && g.first == t.at && path != [] && !Near(path[0], t.at)
    ensures moved == After(g, Along(t.id, path)) && Dragging(moved, t.id) && moved.posted == g.posted + ([LeftDown(t.at)] + Moves(path))
  {
    hide After, Next, Dragging, Near, Along, Moves;
    var first := Touch(t.id, path[0]);
    AlongFirst(t.id, path);
    AfterConcat(g, [Move([first], [first])], Along(t.id, path[1..]));
    OneEvent(g, Move([first], [first]));
    FirstMove(g, t, path[0]);
    var dragging := Next(g, Move([first], [first]));
    DragMoves(dragging, t.id, path[1..]);
    moved := dragging.(posted := dragging.posted + Moves(path[1..]));
    StillDragging(dragging, moved.posted, t.id);
    MovesFirst(path);
    SameList(g.posted, LeftDown(t.at), LeftMove(path[0]), Moves(path[1..]));
  }

  lemma MovesFirst(path: seq<Point>)
    requires path != []
    ensures Moves(path) == [LeftMove(path[0])] + Moves(path[1..])
  {
  }

  lemma SameList(a: seq<Posted>, x: Posted, y: Posted, b: seq<Posted>)
    ensures a + [x, y] + b == a + ([x] + ([y] + b))
  {
  }

  lemma {:induction false} AlongFirst(id: nat, path: seq<Point>)
    requires path != []
    ensures var t := Touch(id, path[0]); Along(id, path) == [Move([t], [t])] + Along(id, path[1..])
  {
    var n := |path| - 1;
    if n == 0 {
      assert path[..0] == [] && path[1..] == [] && Along(id, []) == [];
    } else {
      AlongFirst(id, path[..n]);
      assert path[..n][1..] == path[1..][..n - 1] && path[1..][n - 1] == path[n];
    }
  }

  lemma OneEvent(g: Gesture, e: Event)
    ensures After(g, [e]) == Next(g, e)
  {
    AfterOne(g, [], e);
    assert [] + [e] == [e];
  }

  lemma FirstMove(g: Gesture, t: Touch, to: Point)
    requires !g.resolved && g.downs == [t] && g.first == t.at && !Near(to, t.at)
    ensures var m := Touch(t.id, to); var after := Next(g, Move([m], [m]));
      Dragging(after, t.id) && after.posted == g.posted + [LeftDown(t.at), LeftMove(to)]
  {
    var m := Touch(t.id, to);
    OneTouch(g, m);
    hide MoveAll;
    assert g.downs[0].id == t.id;
    assert Has(g.downs, m.id) && DownOf(g.downs, m.id) == t.at && Far(to, t.at);
    assert g.posted + [LeftDown(t.at)] + [LeftMove(to)] == g.posted + [LeftDown(t.at), LeftMove(to)];
  }

  lemma DragLifts(g: Gesture, id: nat, up: Point)
    requires Dragging(g, id)
    ensures var after := Next(g, End([Touch(id, up)], [])); Idle(after) && after.posted == g.posted + [LeftUp(up)]
  {
    var touches := [Touch(id, up)];
    assert touches[0].id == id;
    assert Has(touches, g.drag);
  }

  /** A finger that stays down until its hold timer fires presses where it went down, and releases
      where it lifts. */
  lemma HoldPresses(g: Gesture, t: Touch, up: Point)
    requires Idle(g)
    ensures var timer := Timer(g.generation + 1, t.id, g.gestures);
      var after := After(g, [Begin([t]), Fire(timer), End([Touch(t.id, up)], [])]);
      Idle(after) && after.posted == g.posted + [CursorMove(t.at), LeftDown(t.at), LeftUp(up)]
  {
    hide After, Reset;
    var timer := Timer(g.generation + 1, t.id, g.gestures);
    OneFingerDown(g, t);
    var down := Next(g, Begin([t]));
    AfterOne(g, [Begin([t])], Fire(timer));
    AfterOne(g, [Begin([t])] + [Fire(timer)], End([Touch(t.id, up)], []));
    assert [Begin([t])] + [Fire(timer)] + [End([Touch(t.id, up)], [])] == [Begin([t]), Fire(timer), End([Touch(t.id, up)], [])];
    var pressed := Next(down, Fire(timer));
    assert down.downs[0].id == t.id;
    assert pressed == down.(resolved := true, drag := t.id, posted := down.posted + [LeftDown(t.at)]);
    DragLifts(pressed, t.id, up);
  }

  // ---------------------------------------------------------------- cancelled gestures

  /** Fingers that are cancelled click nothing, and the next gesture starts afresh. */
  lemma CancelledTapsClickNothing(g: Gesture, fingers: seq<Touch>, moves: seq<Event>, touches: seq<Touch>)
    requires Idle(g) && Apart(fingers) && fingers != [] && forall i :: 0 <= i < |moves| ==> IsSmall(moves[i], fingers)
    ensures var after := After(g, Begins(fingers) + moves + [Cancel(touches)]);
      Idle(after) && after.posted == g.posted + [CursorMove(fingers[0].at)]
  {
    hide After;
    FingersGoDown(g, fingers);
    var down := After(g, Begins(fingers));
    AfterConcat(g, Begins(fingers), moves);
    SmallMovesChangeNothing(down, moves);
    AfterOne(g, Begins(fingers) + moves, Cancel(touches));
  }

  /** A drag that is cancelled releases the button where its finger is. */
  lemma CancelledDragReleases(g: Gesture, t: Touch, path: seq<Point>, up: Point)
    requires Idle(g) && path != [] && !Near(path[0], t.at)
    ensures var after := After(g, [Begin([t])] + Along(t.id, path) + [Cancel([Touch(t.id, up)])]);
      Idle(after) && after.posted == g.posted + [CursorMove(t.at)] + ([LeftDown(t.at)] + Moves(path)) + [LeftUp(up)]
  {
    hide After, Next, Reset, Idle, Dragging;
    OneFingerDown(g, t);
    var down := Next(g, Begin([t]));
    AfterConcat(g, [Begin([t])], Along(t.id, path));
    var moved := PathDrags(down, t, path);
    AfterOne(g, [Begin([t])] + Along(t.id, path), Cancel([Touch(t.id, up)]));
    DragCancels(moved, t.id, up);
  }

  lemma DragCancels(g: Gesture, id: nat, up: Point)
    requires Dragging(g, id)
    ensures var after := Next(g, Cancel([Touch(id, up)])); Idle(after) && after.posted == g.posted + [LeftUp(up)]
  {
    var touches := [Touch(id, up)];
    assert touches[0].id == id;
    assert Has(touches, g.drag);
  }
}
