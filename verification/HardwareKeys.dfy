/** The hardware keyboard's way to the program (`HardwareInput`): which held keys the program may
    see (`FocusGate`), what was posted to it (`HeldEdges`), and the handlers that tie them. */
module HardwareKeys {

  /** One posted edge of a key. */
  datatype Edge = Edge(key: nat, down: bool)

  /** The gate, the keys posted down, the focus, and everything posted so far. */
  datatype Keys = Keys(physical: set<nat>, blocked: set<nat>, held: set<nat>, focused: bool, posted: seq<Edge>)

  const START := Keys({}, {}, {}, true, [])

  // ---------------------------------------------------------------- edges

  function Least(s: set<nat>): (m: nat)
    requires s != {}
    ensures m in s && forall x :: x in s ==> m <= x
  {
    HasLeast(s);
    var m :| IsLeast(s, m);
    m
  }

  predicate IsLeast(s: set<nat>, m: nat) { m in s && forall x :: x in s ==> m <= x }

  lemma {:induction false} HasLeast(s: set<nat>)
    requires s != {}
    ensures exists m :: IsLeast(s, m)
  {
    var x :| x in s;
    if s == {x} {
      assert IsLeast(s, x);
    } else {
      HasLeast(s - {x});
      var m: nat :| IsLeast(s - {x}, m);
      LeastOfMore(s, x, m);
    }
  }

  lemma LeastOfMore(s: set<nat>, x: nat, m: nat)
    requires x in s && IsLeast(s - {x}, m)
    ensures IsLeast(s, if m <= x then m else x)
  {
    var least := if m <= x then m else x;
    forall y | y in s ensures least <= y { assert y == x || y in s - {x}; }
  }

  /** The edges of a set of keys, in key order. */
  function EdgesOf(keys: set<nat>, down: bool): seq<Edge> {
    if keys == {} then [] else [Edge(Least(keys), down)] + EdgesOf(keys - {Least(keys)}, down)
  }

  /** What the program may see. */
  function Wanted(k: Keys): set<nat> { if k.focused then k.physical - k.blocked else {} }

  /** `syncKeys`: ups first, then downs. */
  function Synced(k: Keys): Keys {
    k.(held := Wanted(k), posted := k.posted + EdgesOf(k.held - Wanted(k), false) + EdgesOf(Wanted(k) - k.held, true))
  }

  // ---------------------------------------------------------------- the handlers

  /** `evaluateFocus`, as far as the keyboard goes. */
  function Focused(k: Keys, focus: bool): Keys {
    if focus == k.focused then k
    else Synced(k.(focused := focus, blocked := if focus then k.blocked else k.physical))
  }

  /** `detachKeyboard`: every key is forgotten, then the focus is looked at. */
  function Detached(k: Keys, focus: bool): Keys { Focused(Synced(k.(physical := {}, blocked := {})), focus) }

  const P := 0x50

  /** Ctrl+Alt+P, with either Control and either Alt. */
  predicate IsLockChord(key: nat, held: set<nat>) {
    key == P && (0xA2 in held || 0xA3 in held) && (0xA4 in held || 0xA5 in held)
  }

  /** `key` of a mapped key: the focus is looked at first; a chord the app takes for itself is
      blocked until its key is released. */
  function Pressed(k: Keys, key: nat, focus: bool, canLock: bool): Keys {
    var now := Focused(k, focus);
    var after := now.(physical := now.physical + {key}, blocked := if now.focused then now.blocked else now.blocked + {key});
    if after.focused && canLock && IsLockChord(key, after.physical) then Synced(after.(blocked := after.blocked + {key}))
    else Synced(after)
  }

  function Released(k: Keys, key: nat, focus: bool): Keys {
    var now := Focused(k, focus);
    Synced(now.(physical := now.physical - {key}, blocked := now.blocked - {key}))
  }

  datatype Event =
    | Press(key: nat, focus: bool, canLock: bool)
    | Release(key: nat, focus: bool)
    | Focus(focus: bool)
    | Detach(focus: bool)

  function Next(k: Keys, e: Event): Keys {
    match e
    case Press(key, focus, canLock) => Pressed(k, key, focus, canLock)
    case Release(key, focus) => Released(k, key, focus)
    case Focus(focus) => Focused(k, focus)
    case Detach(focus) => Detached(k, focus)
  }

  function After(k: Keys, events: seq<Event>): Keys {
    if events == [] then k else Next(After(k, events[..|events| - 1]), events[|events| - 1])
  }

  class HardwareKeyboard {
    var physical: set<nat>
    var blocked: set<nat>
    var posted: set<nat>
    var keyboardFocused: bool
    ghost var log: seq<Edge>

    ghost function Current(): Keys
      reads this
    {
      Keys(physical, blocked, posted, keyboardFocused, log)
    }

    constructor ()
      ensures Current() == START
    {
      physical, blocked, posted, keyboardFocused, log := {}, {}, {}, true, [];
    }

    /** `winios_post_key` for each key of a set, in key order. */
    method Post(keys: set<nat>, down: bool)
      modifies `log
      ensures log == old(log) + EdgesOf(keys, down)
    {
      var left := keys;
      while left != {}
        invariant log + EdgesOf(left, down) == old(log) + EdgesOf(keys, down)
        decreases |left|
      {
        var key := Least(left);
        log := log + [Edge(key, down)];
        left := left - {key};
      }
    }

    /** `syncKeys`, with `HeldEdges.update` and `FocusGate.wanted`. */
    method SyncKeys()
      modifies this
      ensures Current() == Synced(old(Current()))
    {
      var want := if keyboardFocused then physical - blocked else {};
      var ups, downs := posted - want, want - posted;
      posted := want;
      Post(ups, false);
      Post(downs, true);
    }

    method EvaluateFocus(keyboard: bool)
      modifies this
      ensures Current() == Focused(old(Current()), keyboard)
    {
      if keyboard != keyboardFocused {
        keyboardFocused := keyboard;
        if !keyboard { blocked := physical; }
        SyncKeys();
      }
    }

    method Key(key: nat, pressed: bool, focus: bool, canLock: bool)
      modifies this
      ensures Current() == if pressed then Pressed(old(Current()), key, focus, canLock) else Released(old(Current()), key, focus)
    {
      EvaluateFocus(focus);
      if pressed {
        physical := physical + {key};
        if !keyboardFocused { blocked := blocked + {key}; }
      } else {
        physical := physical - {key};
        blocked := blocked - {key};
      }
      if pressed && keyboardFocused && canLock && IsLockChord(key, physical) {
        if key in physical { blocked := blocked + {key}; }
        SyncKeys();
        return;
      }
      SyncKeys();
    }

    method DetachKeyboard(focus: bool)
      modifies this
      ensures Current() == Detached(old(Current()), focus)
    {
      physical, blocked := {}, {};
      SyncKeys();
      EvaluateFocus(focus);
    }
  }

  // ---------------------------------------------------------------- what the program sees

  /** The keys that are down after a list of edges. */
  function Down(posted: seq<Edge>): set<nat> {
    if posted == [] then {}
    else
      var before, last := Down(posted[..|posted| - 1]), posted[|posted| - 1];
      if last.down then before + {last.key} else before - {last.key}
  }

  /** Each key's edges alternate, and start with a down. */
  predicate Alternates(posted: seq<Edge>) {
    posted == [] ||
      var before, last := posted[..|posted| - 1], posted[|posted| - 1];
      Alternates(before) && (last.down <==> last.key !in Down(before))
  }

  /** The posted edges fold to exactly the wanted keys, and without focus every held key is blocked. */
  ghost predicate Inv(k: Keys) {
    && k.held == Wanted(k) == Down(k.posted)
    && Alternates(k.posted)
    && k.blocked <= k.physical
    && (!k.focused ==> k.blocked == k.physical)
  }

  lemma DownAppend(posted: seq<Edge>, e: Edge)
    ensures Down(posted + [e]) == if e.down then Down(posted) + {e.key} else Down(posted) - {e.key}
    ensures Alternates(posted + [e]) <==> Alternates(posted) && (e.down <==> e.key !in Down(posted))
  {
    assert (posted + [e])[..|posted|] == posted;
  }

  lemma {:induction false} EdgesFold(posted: seq<Edge>, keys: set<nat>, down: bool)
    requires Alternates(posted) && forall key :: key in keys ==> (key in Down(posted) <==> !down)
    ensures Alternates(posted + EdgesOf(keys, down))
    ensures Down(posted + EdgesOf(keys, down)) == if down then Down(posted) + keys else Down(posted) - keys
    decreases |keys|
  {
    hide Alternates, Down;
    if keys == {} {
      assert posted + [] == posted;
    } else {
      var e, rest := Edge(Least(keys), down), keys - {Least(keys)};
      DownAppend(posted, e);
      EdgesFold(posted + [e], rest, down);
      assert posted + EdgesOf(keys, down) == posted + [e] + EdgesOf(rest, down);
      SetStep(Down(posted), keys, e.key);
    }
  }

  lemma SetStep(held: set<nat>, keys: set<nat>, key: nat)
    requires key in keys
    ensures held + {key} + (keys - {key}) == held + keys
    ensures held - {key} - (keys - {key}) == held - keys
  {
  }

  lemma SyncKeepsInv(k: Keys)
    requires k.held == Down(k.posted) && Alternates(k.posted)
    requires k.blocked <= k.physical && (!k.focused ==> k.blocked == k.physical)
    ensures Inv(Synced(k))
  {
    hide EdgesOf, Down, Alternates;
    EdgesFold(k.posted, k.held - Wanted(k), false);
    EdgesFold(k.posted + EdgesOf(k.held - Wanted(k), false), Wanted(k) - k.held, true);
  }

  lemma FocusKeepsInv(k: Keys, focus: bool)
    requires Inv(k)
    ensures Inv(Focused(k, focus))
  {
    hide EdgesOf, Down, Alternates;
    if focus != k.focused { SyncKeepsInv(k.(focused := focus, blocked := if focus then k.blocked else k.physical)); }
  }

  lemma NextKeepsInv(k: Keys, e: Event)
    requires Inv(k)
    ensures Inv(Next(k, e))
  {
    hide EdgesOf, Down, Alternates, Synced;
    FocusKeepsInv(k, e.focus);
    var now := Focused(k, e.focus);
    match e
    case Press(key, focus, canLock) =>
      var after := now.(physical := now.physical + {key}, blocked := if now.focused then now.blocked else now.blocked + {key});
      SyncKeepsInv(after);
      SyncKeepsInv(after.(blocked := after.blocked + {key}));
    case Release(key, _) => SyncKeepsInv(now.(physical := now.physical - {key}, blocked := now.blocked - {key}));
    case Focus(_) =>
    case Detach(focus) =>
      SyncKeepsInv(k.(physical := {}, blocked := {}));
      FocusKeepsInv(Synced(k.(physical := {}, blocked := {})), focus);
  }

  /** In every run of presses, releases, focus changes, swallowed chords and disconnects: the posted
      edges fold to exactly the keys the program may see, each key's edges alternate starting with a
      down, and without focus nothing is down and everything held is blocked. */
  lemma {:induction false} EdgesFoldToWanted(events: seq<Event>)
    ensures var k := After(START, events);
      Inv(k) && (!k.focused ==> Down(k.posted) == {} && k.blocked == k.physical)
  {
    hide Next;
    if events != [] {
      EdgesFoldToWanted(events[..|events| - 1]);
      NextKeepsInv(After(START, events[..|events| - 1]), events[|events| - 1]);
    }
  }

  // ---------------------------------------------------------------- when a key goes down

  /** The edges an event posts. */
  function NewEdges(k: Keys, e: Event): seq<Edge>
    requires k.posted <= Next(k, e).posted
  {
    Next(k, e).posted[|k.posted|..]
  }

  lemma {:induction false} EdgesAre(keys: set<nat>, down: bool)
    ensures forall e :: e in EdgesOf(keys, down) <==> e.key in keys && e.down == down
    decreases |keys|
  {
    if keys != {} { EdgesAre(keys - {Least(keys)}, down); }
  }

  /** What one sync posts: a key goes down only if the program may see it now. */
  lemma SyncPosts(k: Keys)
    ensures k.posted <= Synced(k).posted
    ensures forall e :: e in Synced(k).posted[|k.posted|..] && e.down ==> e.key in Wanted(k) - k.held
  {
    var ups, downs := EdgesOf(k.held - Wanted(k), false), EdgesOf(Wanted(k) - k.held, true);
    assert Synced(k).posted[|k.posted|..] == ups + downs;
    EdgesAre(k.held - Wanted(k), false);
    EdgesAre(Wanted(k) - k.held, true);
  }

  /** A change of focus posts no downs. */
  lemma FocusPosts(k: Keys, focus: bool)
    requires Inv(k)
    ensures k.posted <= Focused(k, focus).posted
    ensures forall e :: e in Focused(k, focus).posted[|k.posted|..] ==> !e.down
  {
    if focus != k.focused { SyncPosts(k.(focused := focus, blocked := if focus then k.blocked else k.physical)); }
  }

  /** Every posted down comes from the press of that same key while the program has the focus; no
      release, focus change, chord or disconnect ever posts one. */
  lemma DownsComeFromPresses(k: Keys, e: Event)
    requires Inv(k)
    ensures k.posted <= Next(k, e).posted
    ensures forall edge :: edge in NewEdges(k, e) && edge.down ==>
      e.Press? && edge.key == e.key && Next(k, e).focused && !(e.canLock && IsLockChord(e.key, Next(k, e).physical))
  {
    hide EdgesOf, Down, Alternates, Synced;
    FocusPosts(k, e.focus);
    FocusKeepsInv(k, e.focus);
    var now := Focused(k, e.focus);
    match e
    case Press(key, focus, canLock) =>
      var after := now.(physical := now.physical + {key}, blocked := if now.focused then now.blocked else now.blocked + {key});
      var last := if after.focused && canLock && IsLockChord(key, after.physical) then after.(blocked := after.blocked + {key}) else after;
      SyncPosts(last);
      SyncKeepsFields(last);
      Concat(k.posted, now.posted, Synced(last).posted);
    case Release(key, _) =>
      var last := now.(physical := now.physical - {key}, blocked := now.blocked - {key});
      SyncPosts(last);
      Concat(k.posted, now.posted, Synced(last).posted);
    case Focus(_) =>
    case Detach(focus) =>
      var last := k.(physical := {}, blocked := {});
      SyncPosts(last);
      SyncKeepsInv(last);
      FocusPosts(Synced(last), focus);
      Concat(k.posted, Synced(last).posted, Next(k, e).posted);
  }

  lemma SyncKeepsFields(k: Keys)
    ensures Synced(k).physical == k.physical && Synced(k).focused == k.focused
  {
  }

  lemma Concat(a: seq<Edge>, b: seq<Edge>, c: seq<Edge>)
    requires a <= b <= c
    ensures a <= c && c[|a|..] == b[|a|..] + c[|b|..]
  {
  }

  // ---------------------------------------------------------------- the same, told by the events

  /** The event ends a hold of the key. */
  predicate Ends(e: Event, key: nat) { e.Detach? || (e.Release? && e.key == key) }

  predicate Presses(e: Event, key: nat) { e.Press? && e.key == key }

  /** The key is held since its press at `h`. */
  predicate HoldFrom(events: seq<Event>, key: nat, h: int) {
    && 0 <= h < |events| && Presses(events[h], key)
    && (forall i :: h < i < |events| ==> !Ends(events[i], key))
    && (forall i :: 0 <= i < h && Presses(events[i], key) ==> exists j :: i < j < h && Ends(events[j], key))
  }

  ghost predicate IsHeld(events: seq<Event>, key: nat) { exists h :: HoldFrom(events, key, h) }

  /** The press of a key that the app takes for itself, as the last of some events. */
  ghost predicate Swallowed(events: seq<Event>, key: nat) {
    && events != [] && Presses(events[|events| - 1], key) && events[|events| - 1].canLock && key == 0x50
    && (IsHeld(events, 0xA2) || IsHeld(events, 0xA3)) && (IsHeld(events, 0xA4) || IsHeld(events, 0xA5))
  }

  /** The program sees the key: it is held, the program has had the focus ever since its first press,
      and no press of it in this hold was taken by the app. */
  ghost predicate SeenFrom(events: seq<Event>, key: nat, h: int) {
    && HoldFrom(events, key, h)
    && (forall i :: h <= i < |events| ==> events[i].focus)
    && (forall i :: h <= i < |events| ==> !SwallowedAt(events, key, i))
  }

  /** The event at `i` is a press of the key that the app takes for itself. */
  ghost predicate SwallowedAt(events: seq<Event>, key: nat, i: int) {
    0 <= i < |events| && Swallowed(events[..i + 1], key)
  }

  ghost predicate IsSeen(events: seq<Event>, key: nat) { exists h :: SeenFrom(events, key, h) }

  lemma HoldFromNext(events: seq<Event>, e: Event, key: nat, h: int)
    requires h < |events|
    ensures HoldFrom(events + [e], key, h) <==> HoldFrom(events, key, h) && !Ends(e, key)
  {
    var more := events + [e];
    assert more[|events|] == e;
    assert forall i :: 0 <= i < |events| ==> more[i] == events[i];
    if HoldFrom(more, key, h) {
      assert Presses(events[h], key) && !Ends(more[|events|], key);
      forall i | 0 <= i < h && Presses(events[i], key) ensures exists j :: i < j < h && Ends(events[j], key) {
        assert Presses(more[i], key);
        var j :| i < j < h && Ends(more[j], key);
        assert Ends(events[j], key);
      }
      assert HoldFrom(events, key, h);
    }
    if HoldFrom(events, key, h) && !Ends(e, key) {
      forall i | 0 <= i < h && Presses(more[i], key) ensures exists j :: i < j < h && Ends(more[j], key) {
        assert Presses(events[i], key);
        var j :| i < j < h && Ends(events[j], key);
        assert Ends(more[j], key);
      }
    }
  }

  /** There is at most one hold at a time. */
  lemma OneHold(events: seq<Event>, key: nat, a: int, b: int)
    requires HoldFrom(events, key, a) && HoldFrom(events, key, b)
    ensures a == b
  {
    if a < b { NoEarlierHold(events, key, a, b); }
    if b < a { NoEarlierHold(events, key, b, a); }
  }

  lemma NoEarlierHold(events: seq<Event>, key: nat, a: int, b: int)
    requires HoldFrom(events, key, b) && a < b
    ensures !HoldFrom(events, key, a)
  {
  }

  lemma HoldGoesOn(events: seq<Event>, e: Event, key: nat)
    requires IsHeld(events, key) && !Ends(e, key)
    ensures IsHeld(events + [e], key)
  {
    var h :| HoldFrom(events, key, h);
    HoldFromNext(events, e, key, h);
  }

  /** A key that is not held has been let go since each of its presses. */
  lemma {:induction false} NotHeldEnded(events: seq<Event>, key: nat)
    requires !IsHeld(events, key)
    ensures forall i :: 0 <= i < |events| && Presses(events[i], key) ==> exists j :: i < j < |events| && Ends(events[j], key)
  {
    if events != [] {
      var init, e := events[..|events| - 1], events[|events| - 1];
      assert events == init + [e];
      if Ends(e, key) {
      } else {
        if IsHeld(init, key) { HoldGoesOn(init, e, key); }
        NotHeldEnded(init, key);
        if Presses(e, key) { PressIsHeld(init, e, key); }
      }
    }
  }

  lemma PressIsHeld(events: seq<Event>, e: Event, key: nat)
    requires Presses(e, key)
    requires forall i :: 0 <= i < |events| && Presses(events[i], key) ==> exists j :: i < j < |events| && Ends(events[j], key)
    ensures IsHeld(events + [e], key)
  {
    NewHold(events, e, key);
  }

  /** How one more event changes what is held. */
  lemma HeldNext(events: seq<Event>, e: Event, key: nat)
    ensures IsHeld(events + [e], key) <==> !Ends(e, key) && (IsHeld(events, key) || Presses(e, key))
  {
    var more := events + [e];
    assert more[|events|] == e;
    if IsHeld(more, key) {
      var h :| HoldFrom(more, key, h);
      if h < |events| { HoldFromNext(events, e, key, h); }
    }
    if !Ends(e, key) && IsHeld(events, key) { HoldGoesOn(events, e, key); }
    if !IsHeld(events, key) && Presses(e, key) {
      NotHeldEnded(events, key);
      NewHold(events, e, key);
    }
  }

  lemma NewHold(events: seq<Event>, e: Event, key: nat)
    requires Presses(e, key)
    requires forall i :: 0 <= i < |events| && Presses(events[i], key) ==> exists j :: i < j < |events| && Ends(events[j], key)
    ensures HoldFrom(events + [e], key, |events|)
  {
    var more := events + [e];
    forall i | 0 <= i < |events| && Presses(more[i], key) ensures exists j :: i < j < |events| && Ends(more[j], key) {
      assert Presses(events[i], key);
      var j :| i < j < |events| && Ends(events[j], key);
      assert Ends(more[j], key);
    }
  }

  lemma SwallowedBefore(events: seq<Event>, e: Event, key: nat, i: nat)
    requires i < |events|
    ensures SwallowedAt(events + [e], key, i) <==> SwallowedAt(events, key, i)
  {
    assert (events + [e])[..i + 1] == events[..i + 1];
  }

  lemma SeenFromNext(events: seq<Event>, e: Event, key: nat, h: int)
    requires h < |events|
    ensures SeenFrom(events + [e], key, h) <==> SeenFrom(events, key, h) && !Ends(e, key) && e.focus && !Swallowed(events + [e], key)
  {
    hide Swallowed, HoldFrom;
    var more := events + [e];
    HoldFromNext(events, e, key, h);
    assert more[..|events| + 1] == more && more[|events|] == e;
    if HoldFrom(events, key, h) { HoldStarts(events, key, h); }
    forall i: nat | i < |events| { SwallowedBefore(events, e, key, i); }
    assert SwallowedAt(more, key, |events|) <==> Swallowed(more, key);
    if SeenFrom(more, key, h) {
      assert more[|events|].focus && !SwallowedAt(more, key, |events|);
      forall i | h <= i < |events| ensures events[i].focus && !SwallowedAt(events, key, i) {
        assert more[i].focus && !SwallowedAt(more, key, i);
      }
    }
  }

  lemma HoldStarts(events: seq<Event>, key: nat, h: int)
    requires HoldFrom(events, key, h)
    ensures 0 <= h < |events|
  {
  }

  /** How one more event changes what the program sees. */
  lemma SeenNext(events: seq<Event>, e: Event, key: nat)
    ensures IsSeen(events + [e], key) <==>
      && !Ends(e, key) && e.focus && !Swallowed(events + [e], key)
      && (IsSeen(events, key) || (Presses(e, key) && !IsHeld(events, key)))
  {
    hide Swallowed, HoldFrom;
    var more := events + [e];
    forall h | h < |events| { SeenFromNext(events, e, key, h); }
    SeenFromLast(events, e, key);
    if IsSeen(more, key) {
      var h :| SeenFrom(more, key, h);
      HoldStarts(more, key, h);
      if h == |events| { LastHold(events, e, key); }
    }
    if IsSeen(events, key) {
      var h :| SeenFrom(events, key, h);
      HoldStarts(events, key, h);
      assert SeenFrom(more, key, h) <==> !Ends(e, key) && e.focus && !Swallowed(more, key);
    } else if Presses(e, key) && !IsHeld(events, key) {
      NotHeldEnded(events, key);
      NewHold(events, e, key);
    }
  }

  lemma SeenFromLast(events: seq<Event>, e: Event, key: nat)
    ensures SeenFrom(events + [e], key, |events|) <==> HoldFrom(events + [e], key, |events|) && e.focus && !Swallowed(events + [e], key)
  {
    hide HoldFrom, Swallowed;
    var more := events + [e];
    assert more[|events|] == e && more[..|events| + 1] == more;
    assert SwallowedAt(more, key, |events|) <==> Swallowed(more, key);
    if SeenFrom(more, key, |events|) { assert more[|events|].focus && !SwallowedAt(more, key, |events|); }
  }

  lemma LastHold(events: seq<Event>, e: Event, key: nat)
    requires HoldFrom(events + [e], key, |events|)
    ensures Presses(e, key) && !IsHeld(events, key) && !Ends(e, key)
  {
    var more := events + [e];
    assert more[|events|] == e;
    if IsHeld(events, key) {
      var h :| HoldFrom(events, key, h);
      HoldFromNext(events, e, key, h);
      OneHold(more, key, h, |events|);
    }
  }

  /** The model's sets, told by the events. */
  ghost predicate Tells(k: Keys, events: seq<Event>) {
    && (forall key :: key in k.physical <==> IsHeld(events, key))
    && (forall key :: key in k.physical && key !in k.blocked <==> IsSeen(events, key))
    && k.focused == (events == [] || events[|events| - 1].focus)
  }

  lemma PressTells(k: Keys, events: seq<Event>, e: Event)
    requires Inv(k) && Tells(k, events) && e.Press?
    ensures Tells(Next(k, e), events + [e])
  {
    hide EdgesOf, Down, Alternates, IsHeld, IsSeen;
    var after := Next(k, e);
    forall key ensures key in after.physical <==> IsHeld(events + [e], key) { HeldNext(events, e, key); }
    assert (events + [e])[|events|] == e;
    assert Swallowed(events + [e], e.key) <==> e.canLock && IsLockChord(e.key, after.physical);
    forall key ensures key in after.physical && key !in after.blocked <==> IsSeen(events + [e], key) {
      SeenNext(events, e, key);
      assert key != e.key ==> !Swallowed(events + [e], key);
    }
  }

  lemma OtherTells(k: Keys, events: seq<Event>, e: Event)
    requires Inv(k) && Tells(k, events) && !e.Press?
    ensures Tells(Next(k, e), events + [e])
  {
    hide EdgesOf, Down, Alternates, IsHeld, IsSeen;
    var after := Next(k, e);
    assert (events + [e])[|events|] == e;
    forall key ensures key in after.physical <==> IsHeld(events + [e], key) { HeldNext(events, e, key); }
    forall key ensures key in after.physical && key !in after.blocked <==> IsSeen(events + [e], key) {
      SeenNext(events, e, key);
      assert !Swallowed(events + [e], key);
    }
  }

  lemma {:induction false} EventsTell(events: seq<Event>)
    ensures Tells(After(START, events), events)
  {
    hide Next, IsHeld, IsSeen;
    if events == [] {
      NothingHeld();
    } else {
      var init, e := events[..|events| - 1], events[|events| - 1];
      assert events == init + [e];
      EventsTell(init);
      EdgesFoldToWanted(init);
      if e.Press? { PressTells(After(START, init), init, e); } else { OtherTells(After(START, init), init, e); }
    }
  }

  lemma NothingHeld()
    ensures forall key :: !IsHeld([], key) && !IsSeen([], key)
  {
  }

  /** Over every run the keys that are down for the program are exactly those it sees: held since a
      press, with the focus on the program from that press on, and never taken as the chord. */
  lemma DownAreSeen(events: seq<Event>)
    ensures forall key :: key in Down(After(START, events).posted) <==> IsSeen(events, key)
  {
    hide Next, IsHeld, IsSeen, Down, Alternates;
    EventsTell(events);
    EdgesFoldToWanted(events);
    if !After(START, events).focused {
      assert forall key :: key in After(START, events).physical ==> key in After(START, events).blocked;
    }
  }

  // ---------------------------------------------------------------- everything that is posted

  /** The edges from one set of keys to another: ups, then downs, each in key order. */
  function Change(before: set<nat>, after: set<nat>): seq<Edge> {
    EdgesOf(before - after, false) + EdgesOf(after - before, true)
  }

  lemma ChangeTwice(a: set<nat>, b: set<nat>, c: set<nat>)
    requires a == b || b == c
    ensures Change(a, b) + Change(b, c) == Change(a, c)
  {
    assert a - a == {} && c - c == {};
  }

  lemma SyncedPosts(k: Keys)
    ensures Synced(k).posted == k.posted + Change(k.held, Wanted(k)) && Synced(k).held == Wanted(k)
    ensures Synced(k).physical == k.physical && Synced(k).blocked == k.blocked && Synced(k).focused == k.focused
  {
  }

  /** A change of focus leaves nothing down, and without one nothing happens. */
  lemma FocusChanges(k: Keys, focus: bool)
    requires Inv(k)
    ensures var now := Focused(k, focus);
      && now.posted == k.posted + Change(k.held, now.held) && now.physical == k.physical && now.focused == focus
      && (focus == k.focused ==> now == k) && (focus != k.focused ==> now.held == {})
      && (focus && !k.focused ==> k.held == {})
  {
    hide EdgesOf, Down, Alternates, Synced;
    if focus == k.focused {
      ChangeTwice(k.held, k.held, k.held);
      NoChange(k.held);
      assert k.posted + [] == k.posted;
    } else {
      SyncedPosts(k.(focused := focus, blocked := if focus then k.blocked else k.physical));
    }
  }

  lemma NoChange(keys: set<nat>)
    ensures Change(keys, keys) == []
  {
    assert keys - keys == {};
  }

  /** A step posts the change of what is down, as one list of ups and one of downs. */
  lemma StepPosts(k: Keys, e: Event)
    requires Inv(k)
    ensures Next(k, e).posted == k.posted + Change(Down(k.posted), Down(Next(k, e).posted))
  {
    hide EdgesOf, Down, Alternates, Synced, Change;
    NextKeepsInv(k, e);
    var after := Next(k, e);
    match e
    case Press(key, focus, canLock) =>
      var now := Focused(k, focus);
      FocusChanges(k, focus);
      var pressed := now.(physical := now.physical + {key}, blocked := if now.focused then now.blocked else now.blocked + {key});
      var last := if pressed.focused && canLock && IsLockChord(key, pressed.physical) then pressed.(blocked := pressed.blocked + {key}) else pressed;
      SyncedPosts(last);
      ChangeTwice(k.held, now.held, after.held);
      assert k.posted + Change(k.held, now.held) + Change(now.held, after.held) == k.posted + (Change(k.held, now.held) + Change(now.held, after.held));
    case Release(key, focus) =>
      var now := Focused(k, focus);
      FocusChanges(k, focus);
      SyncedPosts(now.(physical := now.physical - {key}, blocked := now.blocked - {key}));
      ChangeTwice(k.held, now.held, after.held);
      assert k.posted + Change(k.held, now.held) + Change(now.held, after.held) == k.posted + (Change(k.held, now.held) + Change(now.held, after.held));
    case Focus(focus) => FocusChanges(k, focus);
    case Detach(focus) =>
      var let_ := k.(physical := {}, blocked := {});
      assert Wanted(let_) == {};
      SyncedPosts(let_);
      SyncKeepsInv(let_);
      FocusChanges(Synced(let_), focus);
      ChangeTwice(k.held, {}, after.held);
      assert k.posted + Change(k.held, {}) + Change({}, after.held) == k.posted + (Change(k.held, {}) + Change({}, after.held));
  }

  /** All keys that were pressed in a run. */
  function PressedKeys(events: seq<Event>): set<nat> { set e | e in events && e.Press? :: e.key }

  ghost function SeenKeys(events: seq<Event>): set<nat> { set key | key in PressedKeys(events) && IsSeen(events, key) }

  /** What a run posts, told by what the program sees before and after each event. */
  ghost function PostedFor(events: seq<Event>): seq<Edge> {
    if events == [] then []
    else PostedFor(events[..|events| - 1]) + Change(SeenKeys(events[..|events| - 1]), SeenKeys(events))
  }

  lemma SeenWerePressed(events: seq<Event>, key: nat)
    ensures key in SeenKeys(events) <==> IsSeen(events, key)
  {
    if IsSeen(events, key) {
      var h :| SeenFrom(events, key, h);
      assert events[h] in events;
    }
  }

  /** Over every run exactly this is posted, and nothing else: after each event the ups of the keys the
      program no longer sees, then the downs of those it sees now, each in key order. */
  lemma {:induction false} PostedAre(events: seq<Event>)
    ensures After(START, events).posted == PostedFor(events) && Down(After(START, events).posted) == SeenKeys(events)
  {
    hide Next, IsSeen, Down, Alternates, Change, EdgesOf, SeenKeys;
    DownAreSeen(events);
    forall key { SeenWerePressed(events, key); }
    assert Down(After(START, events).posted) == SeenKeys(events);
    if events == [] {
      assert After(START, events).posted == [];
    } else {
      var init, e := events[..|events| - 1], events[|events| - 1];
      PostedAre(init);
      EdgesFoldToWanted(init);
      StepPosts(After(START, init), e);
    }
  }

  /** A press of a key that was not held, with the focus on the program before and after and no chord,
      posts exactly its one down. */
  lemma PressGoesDown(events: seq<Event>, e: Event)
    requires e.Press? && e.focus && !IsHeld(events, e.key) && !Swallowed(events + [e], e.key)
    ensures After(START, events + [e]).posted == After(START, events).posted + [Edge(e.key, true)]
  {
    hide IsSeen, IsHeld, Swallowed, Down, Next, EdgesOf;
    var more := events + [e];
    PostedAre(events);
    PostedAre(more);
    assert more[..|events|] == events;
    forall key ensures key in SeenKeys(more) <==> key in SeenKeys(events) || key == e.key {
      SeenNext(events, e, key);
      SeenWerePressed(events, key);
      SeenWerePressed(more, key);
      if key != e.key { OtherNotSwallowed(events, e, key); }
    }
    SeenAreHeld(events, e.key);
    SeenWerePressed(events, e.key);
    assert SeenKeys(events) - SeenKeys(more) == {} && SeenKeys(more) - SeenKeys(events) == {e.key};
    OneEdge(e.key);
  }

  lemma OtherNotSwallowed(events: seq<Event>, e: Event, key: nat)
    requires !Presses(e, key)
    ensures !Swallowed(events + [e], key)
  {
    assert (events + [e])[|events|] == e;
  }

  lemma SeenAreHeld(events: seq<Event>, key: nat)
    requires !IsHeld(events, key)
    ensures !IsSeen(events, key)
  {
  }

  lemma OneEdge(key: nat)
    ensures EdgesOf({}, false) == [] && EdgesOf({key}, true) == [Edge(key, true)]
  {
    assert {key} - {key} == {};
  }
}
