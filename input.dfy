/**
 * Keyboard and pointer decisions of berry's event handlers, as pure
 * functions: the "super tapped alone" detection, the 64-bit `Time`
 * arithmetic behind the double-click and motion-throttle tests, and what a
 * pointer drag does on each motion event.
 */
module Input {
  import opened Config

  // ---- keys ----

  /** The client operations bound to Super+key in the `shortcuts` table. */
  datatype Shortcut =
    | Monocle | Center | ToggleFullscreen | Close | ToggleDecorations
    | SnapLeft | SnapRight | FeatureToggle | ToggleHideAll | Stop

  /**
   * A key as berry's handlers tell keys apart: the two Super keys, Alt and
   * Tab (matched by keycode), the digits 1 to 9 (`Digit(0)` is `XK_1`), the
   * keys of the Super launcher table, of the shortcut table and of the
   * unmodified launcher table, and any other key.
   */
  datatype Key =
    | SuperL | SuperR | Alt | Tab
    | Digit(n: int)
    | Launcher
    | Bound(action: Shortcut)
    | NoModLauncher
    | OtherKey

  /** Whether each Super key has been pressed with nothing bound pressed since. */
  datatype TapFlags = TapFlags(superL: bool, superR: bool)

  /** Presses with Super held that run something: a launcher, a shortcut, or a digit. */
  predicate RunsSomething(k: Key)
  {
    k.Launcher? || k.Bound? || k.Digit?
  }

  /**
   * The flags after a key press (`handle_key_press`): pressing a Super key
   * arms it, and a Super combination that runs something disarms both
   * (`suppress_super_tap`).
   */
  function PressFlags(f: TapFlags, k: Key, superHeld: bool): (r: TapFlags)
    ensures superHeld && RunsSomething(k) ==> r == TapFlags(false, false)
    ensures !(superHeld && RunsSomething(k)) ==>
      r == TapFlags(f.superL || k == SuperL, f.superR || k == SuperR)
  {
    var armed := if k == SuperL then f.(superL := true) else if k == SuperR then f.(superR := true) else f;
    if superHeld && RunsSomething(k) then TapFlags(false, false) else armed
  }

  /**
   * The flags after a key release (`handle_key_release`) and whether a
   * Super tap is reported (which spawns the tap launcher).
   */
  function ReleaseFlags(f: TapFlags, k: Key): (r: (TapFlags, bool))
    ensures r.1 <==> (k == SuperL && f.superL) || (k == SuperR && f.superR)
    ensures k == SuperL ==> r.0 == f.(superL := false)
    ensures k == SuperR ==> r.0 == f.(superR := false)
    ensures k != SuperL && k != SuperR ==> r.0 == f
  {
    if k == SuperL then (f.(superL := false), f.superL)
    else if k == SuperR then (f.(superR := false), f.superR)
    else (f, false)
  }

  /** A run of key presses, each with whether Super was held. */
  function AfterPresses(f: TapFlags, presses: seq<(Key, bool)>): TapFlags
    decreases |presses|
  {
    if |presses| == 0 then f
    else AfterPresses(PressFlags(f, presses[0].0, presses[0].1), presses[1..])
  }

  /**
   * Press Super_L, press other keys (Super_L not among them, which would
   * arm it again), release Super_L: a tap is reported
   * exactly when none of the presses in between was a Super combination
   * that runs something.
   */
  lemma {:induction false} TapIffNothingRan(f: TapFlags, presses: seq<(Key, bool)>)
    requires forall i :: 0 <= i < |presses| ==> presses[i].0 != SuperL
    ensures var g := AfterPresses(PressFlags(f, SuperL, false), presses);
      ReleaseFlags(g, SuperL).1 <==> forall i :: 0 <= i < |presses| ==> !(presses[i].1 && RunsSomething(presses[i].0))
  {
    ArmedUntilSuppressed(PressFlags(f, SuperL, false), presses);
  }

  lemma {:induction false} ArmedUntilSuppressed(f: TapFlags, presses: seq<(Key, bool)>)
    requires f.superL && forall i :: 0 <= i < |presses| ==> presses[i].0 != SuperL
    ensures AfterPresses(f, presses).superL <==> forall i :: 0 <= i < |presses| ==> !(presses[i].1 && RunsSomething(presses[i].0))
    decreases |presses|
  {
    if |presses| > 0 {
      var g := PressFlags(f, presses[0].0, presses[0].1);
      if presses[0].1 && RunsSomething(presses[0].0) {
        DisarmedStaysDisarmed(g, presses[1..]);
      } else {
        ArmedUntilSuppressed(g, presses[1..]);
        assert forall i :: 1 <= i < |presses| ==> presses[i] == presses[1..][i - 1];
      }
    }
  }

  lemma {:induction false} DisarmedStaysDisarmed(f: TapFlags, presses: seq<(Key, bool)>)
    requires !f.superL && forall i :: 0 <= i < |presses| ==> presses[i].0 != SuperL
    ensures !AfterPresses(f, presses).superL
    decreases |presses|
  {
    if |presses| > 0 {
      DisarmedStaysDisarmed(PressFlags(f, presses[0].0, presses[0].1), presses[1..]);
    }
  }

  // ---- time ----

  /** X's `Time` is an `unsigned long`: 64 bits here. */
  const TimeModulus: int := 0x1_0000_0000_0000_0000
  type Time = t: int | 0 <= t < 0x1_0000_0000_0000_0000

  /** `current - last` in unsigned 64-bit arithmetic. */
  function TimeDiff(current: Time, last: Time): (d: Time)
    ensures current >= last ==> d == current - last
    ensures current < last ==> d == current - last + TimeModulus
  {
    (current - last) % TimeModulus
  }

  /**
   * A left-button release is a double click when it comes less than
   * `DOUBLECLICK_INTERVAL` milliseconds after the previous one; a clock
   * that went backwards counts only across the 64-bit wrap.
   */
  function IsDoubleClick(current: Time, lastRelease: Time): (r: bool)
    ensures current >= lastRelease ==> (r <==> current < lastRelease + DoubleclickInterval)
    ensures current < lastRelease ==> (r <==> current + TimeModulus < lastRelease + DoubleclickInterval)
  {
    TimeDiff(current, lastRelease) < DoubleclickInterval
  }

  /** A motion event closer than `pointer_interval` to the last handled one is skipped. */
  function MotionSkipped(current: Time, lastMotion: Time, interval: U32): (r: bool)
    ensures interval == 0 ==> !r
    ensures current >= lastMotion && current - lastMotion >= interval ==> !r
  {
    TimeDiff(current, lastMotion) < interval
  }

  // ---- drags ----

  datatype DragAction = ResizeDrag | MoveDrag | NoDrag

  /**
   * What a motion event of a button drag does: resize when the press was
   * below the window or is the resize combination, otherwise move when the
   * move button is held (with or without the move mask), otherwise nothing.
   */
  function DragActionFor(lowerClick: bool, state: U32, button: U32, conf: Conf): (a: DragAction)
    ensures a == ResizeDrag <==> lowerClick || ((state as bv32) & (conf.resizeMask as bv32) != 0 && button == conf.resizeButton)
    ensures a == MoveDrag <==> a != ResizeDrag && button == conf.moveButton
  {
    if lowerClick || ((state as bv32) & (conf.resizeMask as bv32) != 0 && button == conf.resizeButton) then ResizeDrag
    else if ((state as bv32) & (conf.moveMask as bv32) != 0 && button == conf.moveButton) || button == conf.moveButton then MoveDrag
    else NoDrag
  }

  /** A drag offsets the original value by how far the pointer travelled since the press. */
  function Dragged(original: int, pressedAt: int, pointerAt: int): (r: int)
    ensures pointerAt == pressedAt ==> r == original
    ensures r - original == pointerAt - pressedAt
  {
    original + (pointerAt - pressedAt)
  }

  /** A pointer motion event: its time stamp and where the pointer is. */
  datatype Motion = Motion(time: Time, x: int, y: int)

  /** The window's dragged position and the time of the last motion event acted on. */
  datatype DragState = DragState(x: int, y: int, lastMotion: Time)

  /**
   * The motion events of one drag, in order: an event closer than the
   * interval to the last one acted on is skipped; any other one sets the
   * position from the press, not from the previous position.
   */
  function DragRun(ox: int, oy: int, px: int, py: int, interval: U32, s: DragState, events: seq<Motion>): (r: DragState)
    ensures r == s || exists i :: 0 <= i < |events| && r == DragState(Dragged(ox, px, events[i].x), Dragged(oy, py, events[i].y), events[i].time)
    decreases |events|
  {
    if |events| == 0 then s
    else
      var e := events[0];
      var next := if MotionSkipped(e.time, s.lastMotion, interval) then s
                  else DragState(Dragged(ox, px, e.x), Dragged(oy, py, e.y), e.time);
      var r := DragRun(ox, oy, px, py, interval, next, events[1..]);
      assert r != next ==> exists i :: 0 <= i < |events| && r == DragState(Dragged(ox, px, events[i].x), Dragged(oy, py, events[i].y), events[i].time) by {
        if r != next {
          var i :| 0 <= i < |events[1..]| && r == DragState(Dragged(ox, px, events[1..][i].x), Dragged(oy, py, events[1..][i].y), events[1..][i].time);
          assert events[1..][i] == events[i + 1];
        }
      }
      r
  }

  /** One more event at the end of a run is handled against the run's state so far. */
  lemma {:induction false} DragRunSnoc(ox: int, oy: int, px: int, py: int, interval: U32, s: DragState, events: seq<Motion>, e: Motion)
    ensures var before := DragRun(ox, oy, px, py, interval, s, events);
      DragRun(ox, oy, px, py, interval, s, events + [e])
      == if MotionSkipped(e.time, before.lastMotion, interval) then before
         else DragState(Dragged(ox, px, e.x), Dragged(oy, py, e.y), e.time)
    decreases |events|
  {
    if |events| == 0 {
      assert (events + [e])[1..] == [];
    } else {
      assert (events + [e])[1..] == events[1..] + [e];
      var e0 := events[0];
      var next := if MotionSkipped(e0.time, s.lastMotion, interval) then s
                  else DragState(Dragged(ox, px, e0.x), Dragged(oy, py, e0.y), e0.time);
      DragRunSnoc(ox, oy, px, py, interval, next, events[1..], e);
    }
  }

  /**
   * Skipped motion events lose nothing: whatever was skipped before, a drag
   * whose last event is acted on leaves the window where that event's
   * pointer position puts it relative to the press.
   */
  lemma DragEndsAtLastHandled(ox: int, oy: int, px: int, py: int, interval: U32, s: DragState, events: seq<Motion>, last: Motion)
    requires !MotionSkipped(last.time, DragRun(ox, oy, px, py, interval, s, events).lastMotion, interval)
    ensures DragRun(ox, oy, px, py, interval, s, events + [last])
         == DragState(Dragged(ox, px, last.x), Dragged(oy, py, last.y), last.time)
  {
    DragRunSnoc(ox, oy, px, py, interval, s, events, last);
  }

  /** With no throttle interval every event is acted on, so the drag follows the last one. */
  lemma DragFollowsUnthrottled(ox: int, oy: int, px: int, py: int, s: DragState, events: seq<Motion>, last: Motion)
    ensures DragRun(ox, oy, px, py, 0, s, events + [last])
         == DragState(Dragged(ox, px, last.x), Dragged(oy, py, last.y), last.time)
  {
    DragEndsAtLastHandled(ox, oy, px, py, 0, s, events, last);
  }
}
