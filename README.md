# Remote mouse client: gesture and input translator

This project models the client side of a touch-based remote mouse. A phone
browser page turns touch drags, button taps and keyboard input into named
events (`mouse_move`, `mouse_click`, `key_press`, `keyboard_text`) and sends
them over a socket to the host whose pointer and keyboard it drives.

The model has four modules:

- `Geometry` (geometry.dfy) holds touch positions and displacements. It
  defines the displacement between two samples, the displacements of a whole
  drag path, their sum, and sensitivity scaling. It proves the telescoping
  property: the relative displacements of a drag add up to its end point
  minus its start point.
- `Seqs` (seqs.dfy) holds a small sequence helper.
- `Events` (events.dfy) holds the event payloads, their wire names, the
  key-down filter (only `Backspace` and `Enter` are forwarded) and the trace
  of `mouse_move` payloads in an event log.
- `Remote` (session.dfy) holds the class `Session`, the page's mutable state:
  - the touch anchor (`touchStartRef.current`);
  - whether the socket exists, and the connection indicator;
  - the text field's value;
  - the log of emitted events;
  - the log of displacements submitted to the throttled sender.

  Each handler is a method. Its contract gives the new state. The invariant
  `Valid()` says five things:
  - the indicator equals the latest lifecycle notification;
  - nothing is emitted before a socket exists;
  - the anchor is the last raw sample of the active drag, and the drag's
    submissions are the consecutive differences of its samples;
  - the `mouse_move` payloads are exactly the fired displacements times the
    sensitivity;
  - every fired displacement was submitted earlier, which is the only limit
    the model puts on the sink.

The throttled sender (lodash `throttle`, 16 ms) is an abstract sink. A
touch-move only submits a displacement to it. `Session.ThrottledFire` stands
for the moment the sink calls its function with the arguments of some earlier
submission. The model does not say which submission fires or when, so it
assumes neither leading-edge nor trailing-edge behaviour. The telescoping
property concerns the submissions, so it holds whatever the sink drops.
The pointer's travel is sensitivity times the sum of the fired
displacements. It differs from sensitivity times the finger's travel by
sensitivity times the sum of the dropped displacements, and can be larger or
smaller. The model states no lemma about dropped samples.

Coordinates and sensitivity are exact `real`s.

The code calls lodash `throttle` with its default options, which fire on
both the leading and the trailing edge.

## Model

| member | source | states |
|---|---|---|
| `Geometry.Delta` | frontend/src/App.tsx:65-66 | the displacement moves the anchor exactly onto the new touch point, and it is zero exactly when the finger did not move (no dead zone) |
| `Geometry.Deltas` | frontend/src/App.tsx:62-71 | a drag of n samples gives n-1 displacements, and the k-th is measured from sample k to sample k+1 (relative to the last raw sample, not to the touch-start) |
| `Geometry.DeltasSnoc` | frontend/src/App.tsx:64-70 | one more touch-move adds exactly one displacement, measured from the previous last sample |
| `Geometry.SumDeltas` | frontend/src/App.tsx:57-75 | the displacements of a drag sum to the displacement from its first sample to its last |
| `Geometry.Scale` | frontend/src/App.tsx:51 | with a non-zero sensitivity, a scaled sample is zero exactly when the raw displacement is |
| `Geometry.SumScaleAll` | frontend/src/App.tsx:49-53 | scaling each sample and then summing equals scaling the sum; applied to the fired samples, the pointer moves sensitivity times the sum of the fired displacements |
| `Events.KeyDownKey` | frontend/src/App.tsx:93-99 | `Backspace` maps to `backspace`, `Enter` maps to `enter`, and every other key maps to nothing (each in both directions) |
| `Events.MouseMovesContent` | frontend/src/App.tsx:49-52 | the `mouse_move` trace of a log holds only payloads of `mouse_move` events in that log, and it is empty exactly when the log holds none |
| `Remote.IndicatorLatest` | frontend/src/App.tsx:33-41 | after any history of connect and disconnect notifications, the indicator equals the one just received; earlier notifications never matter |
| `Remote.Session.constructor` | frontend/src/App.tsx:20-27 | the page starts with no socket, disconnected, no anchor, an empty field, sensitivity 1.5 and nothing sent |
| `Remote.Session.AttachSocket` | frontend/src/App.tsx:30-31 | the mount effect makes the socket present and changes nothing else |
| `Remote.Session.OnConnect` | frontend/src/App.tsx:33-36 | a connect notification sets the indicator to true; nothing else changes |
| `Remote.Session.OnDisconnect` | frontend/src/App.tsx:38-41 | a disconnect notification sets the indicator to false; nothing else changes |
| `Remote.Session.TouchStart` | frontend/src/App.tsx:57-60 | the touch point replaces any earlier anchor and starts a new drag; nothing is submitted or emitted |
| `Remote.Session.TouchMove` | frontend/src/App.tsx:62-71 | with no anchor nothing changes; otherwise exactly the displacement from the anchor is submitted and the anchor moves to the new point, whether or not the sender fires |
| `Remote.Session.TouchEnd` | frontend/src/App.tsx:73-75 | the anchor is cleared; nothing is submitted or emitted |
| `Remote.Session.ThrottledFire` | frontend/src/App.tsx:48-55 | a firing with a socket present emits one event, named `mouse_move`, whose payload is the displacement times the sensitivity; with no socket it emits nothing |
| `Remote.Session.HandleClick` | frontend/src/App.tsx:77-79 | with a socket present, exactly one `mouse_click` naming the button is appended; with no socket the log is unchanged |
| `Remote.Session.HandleKeyPress` | frontend/src/App.tsx:81-83 | with a socket present, exactly one `key_press` naming the key is appended; with no socket the log is unchanged |
| `Remote.Session.HandleTextInput` | frontend/src/App.tsx:85-91 | a non-empty value with a socket present is sent whole as one `keyboard_text` and the field is emptied; otherwise nothing is sent and the field keeps the value |
| `Remote.Session.HandleKeyDown` | frontend/src/App.tsx:93-99 | `Backspace` and `Enter` emit one `key_press` `backspace` or `enter` when a socket is present; every other key emits nothing |
| `Remote.Session.DragTelescopes` | frontend/src/App.tsx:62-75 | during a drag, the submitted displacements sum to the anchor minus the touch-start point, whatever the throttle drops |
| `Remote.Session.PointerTravel` | frontend/src/App.tsx:48-55 | the emitted `mouse_move` payloads sum to the sensitivity times the sum of the fired displacements |

## Left out

- `Remote.Session.ThrottledFire` is weaker than lodash `throttle`. It only requires that the fired arguments were submitted earlier. It does not model the 16 ms interval, the leading and trailing edges, coalescing to the latest call, or the limit of one firing per submission, because lodash's code is not part of this model.
- `Remote.Session.ThrottledFire` does not model the stale closure of `useCallback`. The throttled function is re-created whenever the socket or the sensitivity changes, and a firing still pending from an older instance would use that instance's socket and sensitivity. The model uses the session's current values instead.
- Socket I/O is left out. This covers `io(...)`, the backend URL, `socket.emit` as a network send, and `disconnect()` on unmount. Emission is the `emitted` log, and the socket is only the `socketPresent` flag.
- The sensitivity slider (`parseFloat` of a range input) is a UI control. The model keeps the initial sensitivity 1.5 as a constant.
- Rendering, styling, `toggleKeyboard`, input focus and the settings panel are UI and are left out.
- `console.log` in the lifecycle handlers is left out.
- Touch events are reduced to the point of their first touch (`e.touches[0]`). Multi-touch is not modelled.
- Floating-point rounding of coordinates and of the scaled payload is left out. The model uses exact reals.
- The host-side handlers in app.py wrap OS input calls, and frontend/vite.config.ts is build configuration. Neither is part of this model.
