/**
 * What `Clux::process_input_event` (src/input.rs) does to the compositor, as
 * functions of the state before the event: the quit test, the shared serial
 * counter, absolute pointer motion, and the click-to-raise-and-focus policy.
 * The seat's side of each call (key forwarding, motion, button, frame,
 * keyboard focus) is recorded in the `calls` trace.
 */
module Input {
  import opened Options
  import opened Geometry
  import opened Space
  import opened State

  /** An xkb keysym value (`Keysym`), as produced by the keymap for the key and modifier state. */
  type Keysym = nat

  const BackSpace: Keysym := 0xff08
  const LowerQ: Keysym := 0x0071
  const Escape: Keysym := 0xff1b

  /** smithay's `ModifiersState`. */
  datatype Modifiers = Modifiers(ctrl: bool, alt: bool, shift: bool, capsLock: bool, logo: bool, numLock: bool)

  /** A key event with the keysym and modifiers the keyboard resolved for it. */
  datatype KeyEvent = KeyEvent(keycode: nat, pressed: bool, time: nat, modifiers: Modifiers, keysym: Keysym)

  /** An absolute pointer event; `x`, `y` is the position normalised to the device area. */
  datatype AbsoluteMotion = AbsoluteMotion(x: real, y: real, time: nat)

  datatype ButtonEvent = ButtonEvent(button: nat, pressed: bool, time: nat)

  /** The `InputEvent` variants; the ones after `PointerButton` fall into the `_ => {}` arm. */
  datatype InputEvent =
    | Keyboard(key: KeyEvent)
    | PointerMotionAbsolute(motion: AbsoluteMotion)
    | PointerButton(click: ButtonEvent)
    | PointerMotion
    | PointerAxis
    | DeviceAdded
    | DeviceRemoved
    | OtherInput

  /** A call the compositor makes into the seat, in the order it makes them. */
  datatype SeatCall =
    | KeySent(focus: Option<Surface>, keycode: nat, pressed: bool, serial: nat, time: nat)
    | MotionSent(under: Option<(Surface, PointF)>, location: PointF, serial: nat, time: nat)
    | FocusSent(surface: Surface, serial: nat)
    | ButtonSent(button: nat, pressed: bool, serial: nat, time: nat)
    | FrameSent

  /**
   * The state input handling reads and writes: the space's window stack and
   * outputs, the keyboard focus, the pointer's location, the focus passed with
   * the last motion (the surface under the pointer then), the next
   * serial the input arms take from the shared counter (smithay's own
   * takes, such as configure serials, are not counted), whether the loop signal was stopped,
   * and the seat calls made so far.
   */
  datatype CluxState = CluxState(
    stack: seq<Window>,
    outputs: seq<MappedOutput>,
    keyboardFocus: Option<Surface>,
    pointerLoc: PointF,
    motionFocus: Option<(Surface, PointF)>,
    nextSerial: nat,
    stopRequested: bool,
    calls: seq<SeatCall>)

  /**
   * The global quit test inside the keyboard filter: a pressed key that is
   * Ctrl+Alt+BackSpace, Logo+q or Escape.
   */
  function IsQuitCombo(pressed: bool, mods: Modifiers, keysym: Keysym): (quit: bool)
    ensures quit ==> pressed
    ensures quit ==> keysym == BackSpace || keysym == LowerQ || keysym == Escape
    ensures pressed && keysym == Escape ==> quit
    ensures pressed && keysym == LowerQ ==> (quit <==> mods.logo)
    ensures pressed && keysym == BackSpace ==> (quit <==> mods.ctrl && mods.alt)
  {
    pressed && ((mods.ctrl && mods.alt && keysym == BackSpace) || (mods.logo && keysym == LowerQ) || keysym == Escape)
  }

  /**
   * A key event: one serial is taken, the loop signal is stopped on a quit
   * combination, and the filter answers `Forward` in every case, so the key
   * still goes to the keyboard focus.
   */
  function HandleKey(c: CluxState, k: KeyEvent): (r: CluxState)
    ensures r.nextSerial == c.nextSerial + 1
    ensures r.stopRequested <==> c.stopRequested || IsQuitCombo(k.pressed, k.modifiers, k.keysym)
    ensures r.calls == c.calls + [KeySent(c.keyboardFocus, k.keycode, k.pressed, c.nextSerial, k.time)]
    ensures r.(nextSerial := c.nextSerial, stopRequested := c.stopRequested, calls := c.calls) == c
  {
    var serial := c.nextSerial;
    c.(nextSerial := serial + 1,
       stopRequested := c.stopRequested || IsQuitCombo(k.pressed, k.modifiers, k.keysym),
       calls := c.calls + [KeySent(c.keyboardFocus, k.keycode, k.pressed, serial, k.time)])
  }

  /** `event.position_transformed(output_geo.size) + output_geo.loc.to_f64()`. */
  function AbsolutePosition(o: MappedOutput, m: AbsoluteMotion): PointF
  {
    PointF(m.x * o.output.size.w as real + o.loc.x as real, m.y * o.output.size.h as real + o.loc.y as real)
  }

  /**
   * A normalised position inside the unit square lands inside the output's
   * geometry, and scaling back by the output size recovers it.
   */
  lemma MotionLandsOnOutput(o: MappedOutput, m: AbsoluteMotion)
    requires 0.0 <= m.x < 1.0 && 0.0 <= m.y < 1.0
    requires o.output.size.w > 0 && o.output.size.h > 0
    ensures o.Geometry().Contains(AbsolutePosition(o, m))
    ensures AbsolutePosition(o, m).Sub(o.loc.ToF64()).x / o.output.size.w as real == m.x
    ensures AbsolutePosition(o, m).Sub(o.loc.ToF64()).y / o.output.size.h as real == m.y
  {
    var w, h := o.output.size.w as real, o.output.size.h as real;
    ScaledBelow(m.x, w);
    ScaledBelow(m.y, h);
    var p := AbsolutePosition(o, m);
    assert p.x == m.x * w + o.loc.x as real && p.y == m.y * h + o.loc.y as real;
    assert (o.loc.x + o.output.size.w) as real == o.loc.x as real + w;
    assert (o.loc.y + o.output.size.h) as real == o.loc.y as real + h;
  }

  lemma ScaledBelow(a: real, w: real)
    requires 0.0 <= a < 1.0 && w > 0.0
    ensures 0.0 <= a * w < w && (a * w) / w == a
  {
    assert (1.0 - a) * w > 0.0;
  }

  /**
   * Absolute motion: the position is mapped onto the first mapped output, one
   * serial is taken, the pointer moves there, the surface under that point is
   * passed as the motion's focus, and a frame follows the motion. Which
   * surface the seat then treats as focused (an active grab may keep another)
   * is smithay's business.
   */
  function HandleMotion(c: CluxState, m: AbsoluteMotion): (r: CluxState)
    requires c.outputs != []
    ensures r.pointerLoc == AbsolutePosition(c.outputs[0], m)
    ensures r.motionFocus == SurfaceUnder(c.stack, r.pointerLoc)
    ensures r.nextSerial == c.nextSerial + 1
    ensures r.calls == c.calls + [MotionSent(r.motionFocus, r.pointerLoc, c.nextSerial, m.time), FrameSent]
    ensures r.(pointerLoc := c.pointerLoc, motionFocus := c.motionFocus, nextSerial := c.nextSerial, calls := c.calls) == c
  {
    var pos := AbsolutePosition(c.outputs[0], m);
    var serial := c.nextSerial;
    var under := SurfaceUnder(c.stack, pos);
    c.(pointerLoc := pos, motionFocus := under, nextSerial := serial + 1,
       calls := c.calls + [MotionSent(under, pos, serial, m.time), FrameSent])
  }

  /**
   * What a press does before the button goes out: the topmost window under
   * the pointer is raised and, if it has a toplevel, takes the keyboard focus
   * with a focus call carrying `serial`. With no window under the pointer
   * nothing changes.
   */
  function Press(c: CluxState, serial: nat): (r: CluxState)
    ensures multiset(r.stack) == multiset(c.stack)
    ensures UniqueIds(c.stack) ==> UniqueIds(r.stack)
    ensures r.calls == c.calls || (r.keyboardFocus.Some? && r.calls == c.calls + [FocusSent(r.keyboardFocus.value, serial)])
    ensures r.(stack := c.stack, keyboardFocus := c.keyboardFocus, calls := c.calls) == c
  {
    match ElementUnder(c.stack, c.pointerLoc)
    case None => c
    case Some((window, _)) =>
      var raised := RaiseElement(c.stack, window);
      match window.toplevel
      case None => c.(stack := raised)
      case Some(surface) => c.(stack := raised, keyboardFocus := Some(surface), calls := c.calls + [FocusSent(surface, serial)])
  }

  /** A press neither reads nor writes the serial counter. */
  lemma PressIgnoresCounter(c: CluxState, serial: nat, n: nat)
    ensures Press(c.(nextSerial := n), serial) == Press(c, serial).(nextSerial := n)
  {
  }

  /** A press where no window contains the pointer changes nothing. */
  lemma PressOnNothing(c: CluxState, serial: nat)
    requires forall i :: 0 <= i < |c.stack| ==> !c.stack[i].Bbox().Contains(c.pointerLoc)
    ensures Press(c, serial) == c
  {
    assert ElementUnder(c.stack, c.pointerLoc).None?;
  }

  /**
   * A press over the topmost window `i` under the pointer raises it and, if it
   * has a toplevel, hands that the keyboard focus with a focus call.
   */
  lemma PressRaisesTopmost(c: CluxState, serial: nat, i: int)
    requires TopmostAt(c.stack, i, c.pointerLoc)
    ensures var r := Press(c, serial);
      && r.stack == RaiseElement(c.stack, c.stack[i])
      && r.keyboardFocus == (if c.stack[i].toplevel.Some? then c.stack[i].toplevel else c.keyboardFocus)
      && r.calls == c.calls + (if c.stack[i].toplevel.Some? then [FocusSent(c.stack[i].toplevel.value, serial)] else [])
  {
    assert ElementUnder(c.stack, c.pointerLoc) == Some((c.stack[i], c.stack[i].loc));
  }

  /**
   * A button event: one serial is taken; a press raises and focuses as
   * `Press` says, a release changes neither stack nor focus; then the button
   * goes out, followed by a frame, on press and release alike.
   */
  function HandleButton(c: CluxState, b: ButtonEvent): (r: CluxState)
    ensures r.nextSerial == c.nextSerial + 1
    ensures !b.pressed ==> r.stack == c.stack && r.keyboardFocus == c.keyboardFocus
    ensures b.pressed ==> r.stack == Press(c, c.nextSerial).stack && r.keyboardFocus == Press(c, c.nextSerial).keyboardFocus
    ensures r.calls == (if b.pressed then Press(c, c.nextSerial).calls else c.calls)
                       + [ButtonSent(b.button, b.pressed, c.nextSerial, b.time), FrameSent]
    ensures r.(stack := c.stack, keyboardFocus := c.keyboardFocus, nextSerial := c.nextSerial, calls := c.calls) == c
  {
    var serial := c.nextSerial;
    var pressed := if b.pressed then Press(c, serial) else c;
    pressed.(nextSerial := serial + 1, calls := pressed.calls + [ButtonSent(b.button, b.pressed, serial, b.time), FrameSent])
  }

  /** The event kinds that take a serial; every other kind is ignored. */
  predicate TakesSerial(ev: InputEvent)
  {
    ev.Keyboard? || ev.PointerMotionAbsolute? || ev.PointerButton?
  }

  /**
   * Absolute motion unwraps the first mapped output and its geometry: there
   * must be one, and it must have a current mode (every `Output` here has a
   * mode size).
   */
  predicate CanHandle(c: CluxState, ev: InputEvent)
  {
    ev.PointerMotionAbsolute? ==> c.outputs != []
  }

  /**
   * `Clux::process_input_event`. Input never moves outputs, never loses or
   * duplicates a window, never clears a stop request and only appends seat
   * calls; an event that takes no serial changes nothing at all.
   */
  function HandleInput(c: CluxState, ev: InputEvent): (r: CluxState)
    requires CanHandle(c, ev)
    ensures r.outputs == c.outputs
    ensures r.nextSerial == c.nextSerial + (if TakesSerial(ev) then 1 else 0)
    ensures !TakesSerial(ev) ==> r == c
    ensures multiset(r.stack) == multiset(c.stack)
    ensures UniqueIds(c.stack) ==> UniqueIds(r.stack)
    ensures c.stopRequested ==> r.stopRequested
    ensures c.calls <= r.calls
  {
    match ev
    case Keyboard(k) => HandleKey(c, k)
    case PointerMotionAbsolute(m) => HandleMotion(c, m)
    case PointerButton(b) => HandleButton(c, b)
    case _ => c
  }

  predicate CanHandleAll(c: CluxState, evs: seq<InputEvent>)
  {
    forall k :: 0 <= k < |evs| ==> CanHandle(c, evs[k])
  }

  /** The state after handling `evs` in order. */
  function ApplyInputs(c: CluxState, evs: seq<InputEvent>): (r: CluxState)
    requires CanHandleAll(c, evs)
    ensures r.outputs == c.outputs
    decreases |evs|
  {
    if evs == [] then c else ApplyInputs(HandleInput(c, evs[0]), evs[1..])
  }

  function CountHandled(evs: seq<InputEvent>): nat
  {
    if evs == [] then 0 else (if TakesSerial(evs[0]) then 1 else 0) + CountHandled(evs[1..])
  }

  /** The serial a call reports to clients, if it is a key, motion or button event. */
  function CallSerial(call: SeatCall): seq<nat>
  {
    match call
    case KeySent(_, _, _, serial, _) => [serial]
    case MotionSent(_, _, serial, _) => [serial]
    case ButtonSent(_, _, serial, _) => [serial]
    case _ => []
  }

  /** The serials of the key, motion and button calls, in call order. */
  function EventSerials(calls: seq<SeatCall>): seq<nat>
  {
    if calls == [] then [] else CallSerial(calls[0]) + EventSerials(calls[1..])
  }

  lemma {:induction false} EventSerialsAppend(a: seq<SeatCall>, b: seq<SeatCall>)
    ensures EventSerials(a + b) == EventSerials(a) + EventSerials(b)
    decreases |a|
  {
    if a == [] {
      assert a + b == b;
    } else {
      EventSerialsAppend(a[1..], b);
      assert (a + b)[0] == a[0];
      assert (a + b)[1..] == a[1..] + b;
      calc {
        EventSerials(a + b);
        CallSerial(a[0]) + EventSerials(a[1..] + b);
        CallSerial(a[0]) + (EventSerials(a[1..]) + EventSerials(b));
        (CallSerial(a[0]) + EventSerials(a[1..])) + EventSerials(b);
      }
    }
  }

  predicate StrictlyIncreasing(s: seq<nat>)
  {
    forall i, j :: 0 <= i < j < |s| ==> s[i] < s[j]
  }

  /** Every serial handed out so far is below the counter, and they were handed out in increasing order. */
  predicate SerialsIssued(c: CluxState)
  {
    var serials := EventSerials(c.calls);
    StrictlyIncreasing(serials) && forall k :: 0 <= k < |serials| ==> serials[k] < c.nextSerial
  }

  lemma EventSerialsOfOne(x: SeatCall)
    ensures EventSerials([x]) == CallSerial(x)
  {
    assert [x][1..] == [];
    assert CallSerial(x) + [] == CallSerial(x);
  }

  /** A call carrying `serial` followed by a frame: the pair carries just `serial`. */
  lemma EventSerialsOfFramed(x: SeatCall, serial: nat)
    requires CallSerial(x) == [serial]
    ensures EventSerials([x, FrameSent]) == [serial]
  {
    assert [x, FrameSent][1..] == [FrameSent];
    EventSerialsOfOne(FrameSent);
    assert [serial] + [] == [serial];
  }

  /** One event adds exactly the serial it took to the delivered events, and no other. */
  lemma StepSerials(c: CluxState, ev: InputEvent)
    requires CanHandle(c, ev)
    ensures EventSerials(HandleInput(c, ev).calls) == EventSerials(c.calls) + (if TakesSerial(ev) then [c.nextSerial] else [])
  {
    match ev
    case Keyboard(k) => KeySerials(c, k);
    case PointerMotionAbsolute(m) => MotionSerials(c, m);
    case PointerButton(b) => ButtonSerials(c, b);
    case _ =>
  }

  lemma KeySerials(c: CluxState, k: KeyEvent)
    ensures EventSerials(HandleKey(c, k).calls) == EventSerials(c.calls) + [c.nextSerial]
  {
    var call := KeySent(c.keyboardFocus, k.keycode, k.pressed, c.nextSerial, k.time);
    EventSerialsAppend(c.calls, [call]);
    EventSerialsOfOne(call);
  }

  lemma MotionSerials(c: CluxState, m: AbsoluteMotion)
    requires c.outputs != []
    ensures EventSerials(HandleMotion(c, m).calls) == EventSerials(c.calls) + [c.nextSerial]
  {
    var r := HandleMotion(c, m);
    var motion := MotionSent(r.motionFocus, r.pointerLoc, c.nextSerial, m.time);
    EventSerialsAppend(c.calls, [motion, FrameSent]);
    EventSerialsOfFramed(motion, c.nextSerial);
  }

  lemma ButtonSerials(c: CluxState, b: ButtonEvent)
    ensures EventSerials(HandleButton(c, b).calls) == EventSerials(c.calls) + [c.nextSerial]
  {
    var before := if b.pressed then Press(c, c.nextSerial).calls else c.calls;
    var button := ButtonSent(b.button, b.pressed, c.nextSerial, b.time);
    assert HandleButton(c, b).calls == before + [button, FrameSent];
    EventSerialsAppend(before, [button, FrameSent]);
    EventSerialsOfFramed(button, c.nextSerial);
    if b.pressed {
      PressSerials(c, c.nextSerial);
    }
  }

  /** A press adds no serial of its own: a focus call carries the button's. */
  lemma PressSerials(c: CluxState, serial: nat)
    ensures EventSerials(Press(c, serial).calls) == EventSerials(c.calls)
  {
    var r := Press(c, serial);
    if r.calls != c.calls {
      var focus := FocusSent(r.keyboardFocus.value, serial);
      EventSerialsAppend(c.calls, [focus]);
      EventSerialsOfOne(focus);
      assert EventSerials(c.calls) + [] == EventSerials(c.calls);
    }
  }

  /**
   * Over any sequence of events, each key, motion or button event takes one
   * fresh serial from the shared counter, so the serials delivered keep
   * strictly increasing and stay below the counter.
   */
  lemma {:induction false} SerialsStrictlyIncrease(c: CluxState, evs: seq<InputEvent>)
    requires CanHandleAll(c, evs) && SerialsIssued(c)
    ensures var r := ApplyInputs(c, evs);
      && SerialsIssued(r)
      && r.nextSerial == c.nextSerial + CountHandled(evs)
      && |EventSerials(r.calls)| == |EventSerials(c.calls)| + CountHandled(evs)
    decreases |evs|
  {
    if evs != [] {
      var c' := HandleInput(c, evs[0]);
      StepSerials(c, evs[0]);
      assert SerialsIssued(c');
      assert CanHandleAll(c', evs[1..]) by {
        forall k | 0 <= k < |evs[1..]| ensures CanHandle(c', evs[1..][k]) {
          assert evs[1..][k] == evs[k + 1];
        }
      }
      SerialsStrictlyIncrease(c', evs[1..]);
    }
  }

  /**
   * Clicking twice at the same place: the second press leaves the stack and
   * the keyboard focus as the first one left them.
   */
  lemma SecondPressChangesNothing(c: CluxState, first: ButtonEvent, second: ButtonEvent)
    requires UniqueIds(c.stack) && first.pressed && second.pressed
    ensures var c1 := HandleButton(c, first);
      var c2 := HandleButton(c1, second);
      c2.stack == c1.stack && c2.keyboardFocus == c1.keyboardFocus
  {
    var c1 := HandleButton(c, first);
    var p := c.pointerLoc;
    assert c1.pointerLoc == p;
    if ElementUnder(c.stack, p).Some? {
      var i :| TopmostAt(c.stack, i, p);
      var w := c.stack[i];
      PressRaisesTopmost(c, c.nextSerial, i);
      assert c1.stack == Without(c.stack, w.id) + [w];
      var n := |c1.stack|;
      assert c1.stack[n - 1] == w;
      assert TopmostAt(c1.stack, n - 1, p);
      RaiseTopIsNoop(c1.stack);
      PressRaisesTopmost(c1, c1.nextSerial, n - 1);
    } else {
      PressOnNothing(c, c.nextSerial);
      PressOnNothing(c1, c1.nextSerial);
    }
  }

  /** Raising the window that is already on top leaves the stack as it is. */
  lemma RaiseTopIsNoop(stack: seq<Window>)
    requires UniqueIds(stack) && stack != []
    ensures RaiseElement(stack, stack[|stack| - 1]) == stack
  {
    var n := |stack|;
    assert IndexOfWindow(stack, stack[n - 1].id) == Some(n - 1);
    assert stack[..n - 1] + stack[n..] + [stack[n - 1]] == stack;
  }
}
