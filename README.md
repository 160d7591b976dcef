# clux core, modelled in Dafny

clux is a small Wayland compositor built on smithay. This project models
three parts of it and proves what they promise:

- **Input routing** (`Clux::process_input_event`, src/input.rs). It covers:
  - the global quit test in the keyboard filter;
  - the shared serial counter;
  - absolute pointer motion mapped onto the first output;
  - the click-to-raise-and-focus policy on button presses.

  The pure model (`Input`) gives the new compositor state as a function of the old state and the event. The object model (`Compositor.Clux`) is a class whose fields are updated in place, and each of its methods is proved to match the pure model.
- **Space queries** (src/state.rs):
  - `surface_under`: the surface under a global point and that surface's global origin.
  - `map_output`: the configuration entry named after the output overrides the caller's location. Its only caller is src/backend/udev.rs:103, which src/main.rs does not declare as a module; the winit backend maps its output with `state.space.map_output(&output, (0, 0))` (src/winit.rs:58), skipping this lookup. So in the built program `[[outputs]]` positions never take effect.

  smithay's `Space` calls that these use (`element_under`, `raise_element`, `map_output`, `Window::surface_under`) are stand-ins in `Space`, each simpler than smithay's own: `element_under` is the topmost window whose box contains the point, `raise_element` moves a window to the top, `map_output` places an output. `element_under` here ignores smithay's input-region test (see Left out below).
- **The hardware backend** (src/udev.rs):
  - the primary-GPU state machine driven by udev hot-plug events (`Udev.NextPrimaryGpu`, `Udev.UdevHandler`);
  - the `while running` loop with its housekeeping order after each dispatch (`Udev.RunUdev`).

Seat effects are recorded in order in a `calls` trace: key forwarding, pointer motion, button, frame and keyboard focus. Properties about delivery are stated on this trace.

A quit combination is not consumed: the filter returns `FilterResult::Forward` in every case (src/input.rs:41), so the key still reaches the focused client and the loop signal is stopped as well.

Modules, one file each: `Options`, `Geometry` (points, rectangles, the topmost-hit search), `Space`, `State`, `Input`, `Compositor` and `Udev`.

## Model

| member | source | states |
|---|---|---|
| Geometry.LastContaining | src/state.rs:131-132 | the index found is the last rectangle containing the point (nothing above it contains it); `None` exactly when no rectangle contains it |
| Space.ElementUnder | src/input.rs:73 | `None` exactly when no window's box contains the point; otherwise the window returned is the unique topmost one covering it, paired with its location |
| Space.WindowSurfaceUnder | src/state.rs:134-136 | `None` exactly when no surface of the window's tree contains the window-local point; otherwise the topmost such surface with its offset |
| Space.WithoutRemovesOne | src/input.rs:76 | with unique identities, taking window `i` out of the stack leaves the others in their original order (`stack[..i] + stack[i+1..]`) |
| Space.RaiseElement | src/input.rs:76 | the stack is permuted (same length, same multiset); an unmapped window leaves it unchanged; a mapped one ends on top, and the rest keep their relative order; unique identities are preserved |
| Space.PlaceOutput | src/state.rs:149 | the output is found at the given location; it is relocated in place if already mapped or appended if new; no other output changes; unique output identities are preserved |
| Space.PlaceOutputIdempotent | src/state.rs:149 | mapping the same output at the same place twice equals mapping it once |
| State.FindOutputConfig | src/state.rs:141-145 | the index of the first configuration entry whose name equals the output's, `None` exactly when no entry has that name |
| State.OutputPosition | src/state.rs:141-147 | the position is the first matching entry's `pos`, or the caller's `location` when no entry matches |
| State.OutputPositionIgnoresScale | src/state.rs:146 | two configurations that agree on names and positions place every output identically, whatever their `scale` |
| State.SurfaceUnder | src/state.rs:127-138 | `None` when no window covers the point; `Some` exactly when some topmost window has a topmost surface at the translated local point; the answer is that surface with its global origin (window location plus surface offset), and the point lies inside that surface's rectangle |
| Input.IsQuitCombo | src/input.rs:32-38 | a quit needs a pressed key and one of BackSpace, q, Escape; a pressed Escape always quits; a pressed q quits exactly with Logo; a pressed BackSpace quits exactly with Ctrl and Alt |
| Input.HandleKey | src/input.rs:19-43 | one serial is taken; the stop flag is set exactly on a quit combination (and never cleared); the key is forwarded to the current keyboard focus with that serial in every case; nothing else changes |
| Input.MotionLandsOnOutput | src/input.rs:46-48 | a normalised position in the unit square lands inside the first output's geometry, and subtracting the output location and dividing by its size recovers the position |
| Input.HandleMotion | src/input.rs:45-63 | the pointer moves to the position scaled to the first output plus that output's location; the surface under that point is passed as the motion's focus; one serial is taken; a motion call and then a frame are sent; nothing else changes |
| Input.Press | src/input.rs:70-81 | a press only permutes the stack and keeps identities unique; it sends either no call or exactly one keyboard-focus call carrying the button's serial to the new focus; the pointer, outputs, serial and stop flag are untouched |
| Input.PressOnNothing | src/input.rs:73-75 | with no window under the pointer, a press changes nothing |
| Input.PressRaisesTopmost | src/input.rs:71-79 | a press raises the topmost window under the pointer; keyboard focus moves to its toplevel only when it has one, and then a focus call with the serial is sent |
| Input.HandleButton | src/input.rs:65-93 | one serial is taken; a release leaves stack and focus alone; a press does what `Press` says; then the button (press or release) and a frame are sent in that order; nothing else changes |
| Input.HandleInput | src/input.rs:17-96 | key, absolute-motion and button events take exactly one serial, other kinds none and change nothing; outputs are untouched; the stack stays a permutation with unique identities; the stop flag is never cleared; earlier calls are kept as a prefix |
| Input.KeySerials | src/input.rs:20-28 | a key event adds exactly its own serial to the delivered serials |
| Input.MotionSerials | src/input.rs:50-59 | a motion event adds exactly its own serial to the delivered serials |
| Input.ButtonSerials | src/input.rs:66-90 | a button event adds exactly its own serial to the delivered serials |
| Input.PressSerials | src/input.rs:77-78 | the focus change on a press delivers no serial beyond the button's own |
| Input.StepSerials | src/input.rs:18-95 | each event appends its serial to the delivered serials exactly when it takes one |
| Input.SerialsStrictlyIncrease | src/input.rs:17-96 | over any event sequence, delivered serials stay strictly increasing and below the counter; the counter and the number of delivered serials both grow by the number of key, motion and button events |
| Input.SecondPressChangesNothing | src/input.rs:70-80 | pressing twice without moving: the second press leaves the stack and keyboard focus as the first left them |
| Input.RaiseTopIsNoop | src/input.rs:76 | raising the window already on top leaves the stack unchanged |
| Compositor.Clux.constructor | src/state.rs:74-84 | the new compositor has an empty space, no keyboard focus, no motion focus, no stop request and no calls |
| Compositor.Clux.NextSerial | src/input.rs:20 | returns the counter's current value and advances it by one |
| Compositor.Clux.ProcessInputEvent | src/input.rs:17-96 | the in-place update equals `HandleInput` on the previous state and keeps the space's identities unique |
| Compositor.Clux.OnKeyboard | src/input.rs:19-43 | the in-place update equals `HandleKey` |
| Compositor.Clux.OnPointerMotionAbsolute | src/input.rs:45-63 | the in-place update equals `HandleMotion` |
| Compositor.Clux.OnPointerButton | src/input.rs:65-93 | the in-place update equals `HandleButton` |
| Compositor.Clux.RaiseAndFocusUnderPointer | src/input.rs:70-81 | the in-place update equals `Press` with the button's serial |
| Compositor.Clux.MapOutput | src/state.rs:140-150 | only the outputs change; they become `PlaceOutput` at the configured position (or the given location); identities stay unique |
| Udev.NextPrimaryGpu | src/udev.rs:47-63 | a primary GPU already set is never changed; with none set, an added DRM node becomes it; non-DRM additions, changes and removals leave it as it was |
| Udev.PrimaryGpuIsFirstDrm | src/udev.rs:51-52 | over any sequence of udev events, a primary GPU that was set stays; one that was unset becomes the path of the first DRM node added |
| Udev.UdevHandler.constructor | src/udev.rs:43 | the primary GPU starts as the detected one, or none when detection fails |
| Udev.UdevHandler.Handle | src/udev.rs:47-63 | handling an event updates `primary_gpu_id` exactly as `NextPrimaryGpu` says |
| Udev.RunUdev | src/udev.rs:73-84 | the loop's steps are those of `LoopTrace`; it is still running at the end exactly when every dispatch succeeded |
| Udev.SplitTrace | src/udev.rs:75-84 | after `n` successful dispatches, the loop's steps are those of the first `n` iterations followed by the steps from dispatch `n` on |
| Udev.HousekeepingFollowsSuccess | src/udev.rs:79-83 | every successful dispatch is followed immediately by space refresh, popup cleanup and client flush, in that order |
| Udev.FailureEndsLoop | src/udev.rs:77-78 | a failed dispatch is the last step: no housekeeping and no further dispatch follow it |
| Udev.DispatchAt | src/udev.rs:75-84 | while dispatches succeed, dispatch `j` is step `4*j`, whatever the handlers signalled |
| Udev.StopSignalIgnored | src/udev.rs:75-78 | a stop requested during a successful dispatch (src/input.rs:37) does not end the loop: the next dispatch still happens |
| Udev.RunUdevHonouringStop | src/udev.rs:73-84 | corrected loop: its steps are those of `StoppingLoopTrace`; it is still running exactly when every dispatch succeeded and none asked to stop |
| Udev.SplitStoppingTrace | src/udev.rs:75-84 | corrected loop: after `n` dispatches that neither failed nor asked to stop, its steps are those of the first `n` iterations followed by the rest |
| Udev.StopEndsLoop | src/udev.rs:75-84 | corrected loop: a stop requested during dispatch `j` ends the loop right after that iteration's housekeeping |
| Udev.StoppingLoopIsPrefix | src/udev.rs:75-84 | the corrected loop's steps are a prefix of the original's, and equal to them when no stop is ever requested |

## Left out

- Space.ElementUnder: smithay's `Space::element_under` also skips a window whose input region does not contain the point. For a `Window` that test is `surface_under(local, WindowSurfaceType::ALL).is_some()`, and the search goes on to the windows below. The stand-in tests the window's box only. So `State.SurfaceUnder` can be `None` over a point that a lower window's surface covers, where clux returns that surface (src/state.rs:131-137). And `Input.Press` can raise and focus a window that has no surface under the pointer, where clux raises and focuses the lower window (src/input.rs:73-78).
- Input.SerialsStrictlyIncrease: serials are unbounded naturals. smithay's `SERIAL_COUNTER` is a `u32` that wraps, so strict increase holds only until the first wrap-around. `SERIAL_COUNTER` is also shared with smithay, which takes serials from it for configure events (for example after the activation in `raise_element(&window, true)`, src/input.rs:76). `nextSerial` counts only the serials the input arms take, so the program's counter grows by at least `CountHandled(evs)`, not exactly; the same holds for the single step in `Input.HandleKey`, `Input.HandleMotion` and `Input.HandleButton`. The delivered serials still strictly increase.
- Input.HandleMotion: pointer grabs are not modelled. The surface under the new position is what is passed to `pointer.motion` as its focus (`motionFocus`); which surface smithay then treats as focused, for example the pressed surface during a click grab, is not modelled.
- Input.HandleMotion: an output's geometry is taken as its mode size at its mapped location. Output scale and transform, which `output_geometry` applies, are not modelled. Coordinates are exact reals rather than `f64`, and `i32` geometry is unbounded.
- Input.HandleMotion: the motion arm unwraps the first output (src/input.rs:46-47), so it panics when no output is mapped. Having a first output is a precondition here (`CanHandle`). src/udev.rs never maps an output, so under that backend an absolute motion event would hit this panic. src/backend/udev.rs, which does map one, is not declared as a module in src/main.rs. `output_geometry(output).unwrap()` (src/input.rs:47) also panics when the first output has no current mode; every `Space.Output` here carries a mode size, so that second panic is not modelled.
- Space.RaiseElement: the `activate = true` argument of `raise_element` (window activation and configure) is not modelled. Only the stacking order is.
- Input.HandleKey: xkb keysym and modifier resolution happen inside smithay. The keysym and modifiers are fields of the key event. Key repeat and the keyboard's own focus bookkeeping are not modelled.
- Relative pointer motion, axis, and device added/removed events fall into the `_ => {}` arm (src/input.rs:94) and are modelled as changing nothing, as in the code.
- Udev.RunUdev: `event_loop.dispatch` is not modelled. Each dispatch is an outcome given as input (succeeded, and whether a handler asked to stop). The loop runs over a finite run of such outcomes, so a run that never ends is covered only through its finite prefixes. `space.refresh`, `popups.cleanup` and `flush_clients` are recorded as steps, not modelled.
- Udev.NextPrimaryGpu: `DrmNode::from_dev_id` is a boolean on the `Added` event. `primary_gpu` is a `Detection` input. `tracing` output is omitted.
- `Clux::new` and `init_wayland_listener` (socket, event-loop sources and configuration loading) are not modelled. The constructor gives only the state they leave behind. The winit backend, the smithay handler glue, src/backend/ and TOML configuration parsing are not part of this model.
- smithay's `Space`, `Seat` and `Window` internals are not modelled. They are represented by the stack, outputs, focus and call trace above.

## Findings

| source | as written | input that shows it | evidently intended | confidence | as-written member | corrected member |
|---|---|---|---|---|---|---|
| src/udev.rs:75-84 | `running` is cleared only when `dispatch` returns an error. The quit combinations call `loop_signal.stop()` (src/input.rs:37), but calloop reads that flag only in `EventLoop::run`, never in `dispatch`. So under the udev backend, Ctrl+Alt+BackSpace, Logo+q and Escape do not end the compositor. The winit loop has the same flaw: its `running` is cleared only by `CloseRequested`, `PumpStatus::Exit` or a dispatch error (src/winit.rs:125-138); that loop is not part of this model. | two successful dispatches, the first of which handled a pressed Escape: the second dispatch still runs | the loop also ends once a handler has asked it to stop (after that iteration's housekeeping) | not executed; medium, because it relies on calloop's `dispatch` not reading the stop flag | Udev.StopSignalIgnored | Udev.RunUdevHonouringStop |
