/** The client session of the remote-control page: the touch anchor of the
    gesture translator, the socket gate and connection indicator, the text
    field of the on-screen keyboard, and everything sent so far.

    The throttled sender is an abstract sink. A touch-move only SUBMITS a
    displacement to it (`submitted`); at moments the model does not fix,
    the sink FIRES with the arguments of one earlier submission
    (`ThrottledFire`), and only a firing emits a `mouse_move`. */
module Remote {
  import opened Geometry
  import opened Events
  import opened Seqs

  /** The connection indicator after a history of lifecycle notifications
      (`true` for connect, `false` for disconnect): the latest one, or
      `false` before the first. */
  function Indicator(notifications: seq<bool>): bool {
    if notifications == [] then false else Last(notifications)
  }

  /** Only the latest notification matters: whatever came before, the
      indicator shows the one just received. */
  lemma IndicatorLatest(earlier: seq<bool>, latest: bool)
    ensures Indicator(earlier + [latest]) == latest
  {
  }

  class Session {
    /** The pointer sensitivity; the page starts it at 1.5. */
    const sensitivity: real
    /** Whether the socket has been created; every emission is gated on it. */
    var socketPresent: bool
    /** The connection indicator. */
    var connected: bool
    /** The last touch position of the active drag, if any. */
    var anchor: Option<Vec>
    /** The current value of the hidden keyboard text field. */
    var inputValue: string
    /** Every event emitted on the socket, oldest first. */
    var emitted: seq<Event>
    /** Every displacement submitted to the throttled sender, oldest first. */
    var submitted: seq<Vec>

    /** Lifecycle notifications received so far (`true` = connect). */
    ghost var notifications: seq<bool>
    /** The raw touch positions of the active drag, from its touch-start on. */
    ghost var dragPath: seq<Vec>
    /** Where the active drag's submissions begin in `submitted`. */
    ghost var dragFrom: nat
    /** The submitted displacements the throttled sender has fired, in order. */
    ghost var fired: seq<Vec>

    ghost predicate Valid()
      reads this
    {
      // the indicator is the latest notification, and nothing else sets it
      connected == Indicator(notifications) &&
      // nothing is ever emitted without a socket
      (!socketPresent ==> emitted == []) &&
      // the anchor is the last raw sample of the active drag ...
      (anchor == None <==> dragPath == []) &&
      (anchor != None ==>
        anchor.value == Last(dragPath) && dragFrom <= |submitted| &&
        // ... and the drag has submitted one displacement per move,
        // each relative to the sample before it
        submitted[dragFrom..] == Deltas(dragPath)) &&
      // the mouse_move payloads are exactly the fired displacements, scaled
      MouseMoves(emitted) == ScaleAll(fired, sensitivity) &&
      (forall k :: 0 <= k < |fired| ==> fired[k] in submitted)
    }

    /** The page on load: no socket yet, disconnected, no drag, empty field. */
    constructor ()
      ensures Valid()
      ensures sensitivity == 1.5 && !socketPresent && !connected
      ensures anchor == None && inputValue == "" && emitted == [] && submitted == []
      ensures notifications == [] && dragPath == [] && fired == []
    {
      sensitivity := 1.5;
      socketPresent, connected := false, false;
      anchor, inputValue := None, "";
      emitted, submitted := [], [];
      notifications, dragPath, dragFrom, fired := [], [], 0, [];
    }

    /** The mount effect stores the newly opened socket. */
    method AttachSocket()
      requires Valid()
      modifies this`socketPresent
      ensures Valid() && socketPresent
    {
      socketPresent := true;
    }

    /** A `connect` notification turns the indicator on. */
    method OnConnect()
      requires Valid()
      modifies this`connected, this`notifications
      ensures Valid() && connected
      ensures notifications == old(notifications) + [true]
    {
      connected := true;
      notifications := notifications + [true];
    }

    /** A `disconnect` notification turns the indicator off. */
    method OnDisconnect()
      requires Valid()
      modifies this`connected, this`notifications
      ensures Valid() && !connected
      ensures notifications == old(notifications) + [false]
    {
      connected := false;
      notifications := notifications + [false];
    }

    /** Touch-start: the first touch point becomes the anchor, replacing any
        earlier one; nothing is submitted or emitted. */
    method TouchStart(p: Vec)
      requires Valid()
      modifies this`anchor, this`dragPath, this`dragFrom
      ensures Valid()
      ensures anchor == Some(p) && dragPath == [p] && dragFrom == |submitted|
    {
      anchor := Some(p);
      dragPath := [p];
      dragFrom := |submitted|;
    }

    /** Touch-move: without an anchor nothing happens. Otherwise the
        displacement from the anchor to `p` is submitted to the throttled
        sender and `p` becomes the anchor, whether or not the sender fires. */
    method TouchMove(p: Vec)
      requires Valid()
      modifies this`anchor, this`submitted, this`dragPath
      ensures Valid()
      ensures old(anchor) == None ==>
        anchor == None && submitted == old(submitted) && dragPath == old(dragPath)
      ensures old(anchor) != None ==>
        submitted == old(submitted) + [Delta(old(anchor).value, p)] &&
        anchor == Some(p) && dragPath == old(dragPath) + [p]
    {
      if anchor == None {
        return;
      }
      var d := Delta(anchor.value, p);
      DeltasSnoc(dragPath, p);
      assert (submitted + [d])[dragFrom..] == submitted[dragFrom..] + [d];
      submitted := submitted + [d];
      anchor := Some(p);
      dragPath := dragPath + [p];
    }

    /** Touch-end: the anchor is cleared; a pending firing is not cancelled. */
    method TouchEnd()
      requires Valid()
      modifies this`anchor, this`dragPath
      ensures Valid()
      ensures anchor == None && dragPath == []
    {
      anchor := None;
      dragPath := [];
    }

    /** The throttled sender fires with the arguments of an earlier
        submission: with a socket it emits one `mouse_move` scaled by the
        sensitivity, without one it emits nothing. */
    method ThrottledFire(d: Vec)
      requires Valid() && d in submitted
      modifies this`emitted, this`fired
      ensures Valid()
      ensures socketPresent ==>
        emitted == old(emitted) + [MouseMove(d.x * sensitivity, d.y * sensitivity)] &&
        fired == old(fired) + [d] && Name(emitted[|emitted| - 1]) == "mouse_move"
      ensures !socketPresent ==> emitted == old(emitted) && fired == old(fired)
    {
      if socketPresent {
        var e := MouseMove(d.x * sensitivity, d.y * sensitivity);
        assert Vec(e.dx, e.dy) == Scale(d, sensitivity);
        MouseMovesSnoc(emitted, e);
        ScaleAllSnoc(fired, d, sensitivity);
        emitted := emitted + [e];
        fired := fired + [d];
      }
    }

    /** Emits `e` when a socket is present, and does nothing otherwise. */
    method Emit(e: Event)
      requires Valid() && !e.MouseMove?
      modifies this`emitted
      ensures Valid()
      ensures emitted == if socketPresent then old(emitted) + [e] else old(emitted)
    {
      if socketPresent {
        MouseMovesSnoc(emitted, e);
        emitted := emitted + [e];
      }
    }

    /** A button tap: one `mouse_click` naming the button. */
    method HandleClick(b: Button)
      requires Valid()
      modifies this`emitted
      ensures Valid()
      ensures emitted == if socketPresent then old(emitted) + [MouseClick(b)] else old(emitted)
      ensures socketPresent ==> Name(emitted[|emitted| - 1]) == "mouse_click"
    {
      Emit(MouseClick(b));
    }

    /** A key tap: one `key_press` naming the key. */
    method HandleKeyPress(key: string)
      requires Valid()
      modifies this`emitted
      ensures Valid()
      ensures emitted == if socketPresent then old(emitted) + [KeyPress(key)] else old(emitted)
      ensures socketPresent ==> Name(emitted[|emitted| - 1]) == "key_press"
    {
      Emit(KeyPress(key));
    }

    /** A change of the text field to `value`: a non-empty value is sent whole
        as one `keyboard_text` and the field is emptied; an empty value, or
        any value without a socket, is neither sent nor cleared. */
    method HandleTextInput(value: string)
      requires Valid()
      modifies this`emitted, this`inputValue
      ensures Valid()
      ensures value != "" && socketPresent ==>
        emitted == old(emitted) + [KeyboardText(value)] && inputValue == "" &&
        Name(emitted[|emitted| - 1]) == "keyboard_text"
      ensures !(value != "" && socketPresent) ==>
        emitted == old(emitted) && inputValue == value
    {
      if value != "" && socketPresent {
        Emit(KeyboardText(value));
        inputValue := "";
      } else {
        inputValue := value;
      }
    }

    /** Key-down in the text field: `Backspace` and `Enter` go out as the
        `backspace` and `enter` key presses; other keys are left to the
        text-change path and emit nothing here. */
    method HandleKeyDown(key: string)
      requires Valid()
      modifies this`emitted
      ensures Valid()
      ensures key == "Backspace" && socketPresent ==> emitted == old(emitted) + [KeyPress("backspace")]
      ensures key == "Enter" && socketPresent ==> emitted == old(emitted) + [KeyPress("enter")]
      ensures (key != "Backspace" && key != "Enter") || !socketPresent ==> emitted == old(emitted)
    {
      match KeyDownKey(key)
      case Some(k) => HandleKeyPress(k);
      case None =>
    }

    /** Whatever the throttled sender drops, the active drag's submissions add
        up to the displacement from its touch-start point to the anchor. */
    lemma DragTelescopes()
      requires Valid() && anchor != None
      ensures Sum(submitted[dragFrom..]) == Delta(dragPath[0], anchor.value)
    {
      SumDeltas(dragPath);
    }

    /** The pointer travel emitted so far is the sum of the fired
        displacements times the sensitivity. */
    lemma PointerTravel()
      requires Valid()
      ensures Sum(MouseMoves(emitted)) == Scale(Sum(fired), sensitivity)
    {
      SumScaleAll(fired, sensitivity);
    }
  }
}
