/**
 * The compositor object `Clux` (src/state.rs), with the fields its input
 * handling and output placement update in place. The space, the seat and the
 * shared serial counter live in smithay; here they are the fields below.
 */
module Compositor {
  import opened Options
  import opened Geometry
  import opened Space
  import opened State
  import opened Input

  class Clux {
    /** The space's window stack, bottom first. */
    var stack: seq<Window>
    /** The space's mapped outputs, in mapping order. */
    var outputs: seq<MappedOutput>
    /** The `[[outputs]]` entries of the configuration. */
    const config: seq<OutputConfig>
    var keyboardFocus: Option<Surface>
    var pointerLoc: PointF
    var motionFocus: Option<(Surface, PointF)>
    /** The next serial the input arms take from `SERIAL_COUNTER` (smithay's own takes are not counted). */
    var nextSerial: nat
    /** Whether `loop_signal.stop()` has been called. */
    var stopRequested: bool
    /** The calls made into the seat so far. */
    var calls: seq<SeatCall>

    ghost predicate Valid()
      reads this
    {
      UniqueIds(stack) && UniqueOutputIds(outputs)
    }

    /** The input-handling view of this object. */
    function Snapshot(): CluxState
      reads this
    {
      CluxState(stack, outputs, keyboardFocus, pointerLoc, motionFocus, nextSerial, stopRequested, calls)
    }

    /** The state `Clux::new` leaves behind: an empty space and a seat with nothing focused. */
    constructor (config: seq<OutputConfig>, firstSerial: nat)
      ensures Valid() && this.config == config
      ensures stack == [] && outputs == []
      ensures keyboardFocus == None && motionFocus == None && pointerLoc == PointF(0.0, 0.0)
      ensures nextSerial == firstSerial && !stopRequested && calls == []
    {
      this.config := config;
      stack, outputs := [], [];
      keyboardFocus, motionFocus, pointerLoc := None, None, PointF(0.0, 0.0);
      nextSerial, stopRequested, calls := firstSerial, false, [];
    }

    /** `SERIAL_COUNTER.next_serial()`. */
    method NextSerial() returns (serial: nat)
      modifies this`nextSerial
      ensures serial == old(nextSerial) && nextSerial == serial + 1
    {
      serial := nextSerial;
      nextSerial := nextSerial + 1;
    }

    /** `Clux::process_input_event`: one arm per event kind; the other kinds are ignored. */
    method ProcessInputEvent(ev: InputEvent)
      requires Valid() && CanHandle(Snapshot(), ev)
      modifies this
      ensures Valid()
      ensures Snapshot() == HandleInput(old(Snapshot()), ev)
    {
      match ev
      case Keyboard(k) => OnKeyboard(k);
      case PointerMotionAbsolute(m) => OnPointerMotionAbsolute(m);
      case PointerButton(b) => OnPointerButton(b);
      case _ =>
    }

    /** The `InputEvent::Keyboard` arm: the filter closure stops the loop on a quit combination and forwards the key. */
    method OnKeyboard(k: KeyEvent)
      requires Valid()
      modifies this
      ensures Valid()
      ensures Snapshot() == HandleKey(old(Snapshot()), k)
    {
      var serial := NextSerial();
      if IsQuitCombo(k.pressed, k.modifiers, k.keysym) {
        stopRequested := true;
      }
      calls := calls + [KeySent(keyboardFocus, k.keycode, k.pressed, serial, k.time)];
    }

    /** The `InputEvent::PointerMotionAbsolute` arm. */
    method OnPointerMotionAbsolute(m: AbsoluteMotion)
      requires Valid() && outputs != []
      modifies this
      ensures Valid()
      ensures Snapshot() == HandleMotion(old(Snapshot()), m)
    {
      var pos := AbsolutePosition(outputs[0], m);
      var serial := NextSerial();
      var under := SurfaceUnder(stack, pos);
      pointerLoc, motionFocus := pos, under;
      calls := calls + [MotionSent(under, pos, serial, m.time), FrameSent];
    }

    /** The `InputEvent::PointerButton` arm. */
    method OnPointerButton(b: ButtonEvent)
      requires Valid()
      modifies this
      ensures Valid()
      ensures Snapshot() == HandleButton(old(Snapshot()), b)
    {
      ghost var before := Snapshot();
      var serial := NextSerial();
      if b.pressed {
        PressIgnoresCounter(before, serial, serial + 1);
        RaiseAndFocusUnderPointer(serial);
      }
      calls := calls + [ButtonSent(b.button, b.pressed, serial, b.time), FrameSent];
    }

    /** The press branch of the `PointerButton` arm: raise the window under the pointer and focus its toplevel. */
    method RaiseAndFocusUnderPointer(serial: nat)
      requires Valid()
      modifies this
      ensures Valid()
      ensures Snapshot() == Press(old(Snapshot()), serial)
    {
      var under := ElementUnder(stack, pointerLoc);
      match under
      case None =>
      case Some((window, _)) =>
        stack := RaiseElement(stack, window);
        match window.toplevel
        case None =>
        case Some(surface) =>
          keyboardFocus := Some(surface);
          calls := calls + [FocusSent(surface, serial)];
    }

    /**
     * `Clux::map_output`: maps `output` at the position its configuration
     * entry gives, or at `location` when none names it. Only the outputs
     * change.
     */
    method MapOutput(output: Output, location: Point)
      requires Valid()
      modifies this`outputs
      ensures Valid()
      ensures outputs == PlaceOutput(old(outputs), output, OutputPosition(config, output.name, location))
    {
      var pos := OutputPosition(config, output.name, location);
      outputs := PlaceOutput(outputs, output, pos);
    }
  }
}
