/** The named command events the client sends to the remote host, and the
    pure mappings from UI input to those events. */
module Events {
  import opened Geometry

  datatype Option<T> = None | Some(value: T)

  /** The pointer button a click names. */
  datatype Button = Left | Right | Middle

  /** One emitted event with its payload:
      `mouse_move {dx, dy}`, `mouse_click {button}`, `key_press {key}`,
      `keyboard_text {text}`. */
  datatype Event =
    | MouseMove(dx: real, dy: real)
    | MouseClick(button: Button)
    | KeyPress(key: string)
    | KeyboardText(text: string)

  /** The event name put on the wire. */
  function Name(e: Event): string {
    match e
    case MouseMove(_, _) => "mouse_move"
    case MouseClick(_) => "mouse_click"
    case KeyPress(_) => "key_press"
    case KeyboardText(_) => "keyboard_text"
  }

  /** Key-down interception: only `Backspace` and `Enter` are forwarded, as
      the key names `backspace` and `enter`; every other key yields nothing. */
  function KeyDownKey(key: string): (r: Option<string>)
    ensures r == Some("backspace") <==> key == "Backspace"
    ensures r == Some("enter") <==> key == "Enter"
    ensures r == None <==> key != "Backspace" && key != "Enter"
  {
    if key == "Backspace" then Some("backspace")
    else if key == "Enter" then Some("enter")
    else None
  }

  /** The pointer displacements carried by the `mouse_move` events of a log,
      in emission order. What it picks out is stated by `MouseMovesSnoc`
      and `MouseMovesContent`. */
  function MouseMoves(log: seq<Event>): seq<Vec> {
    if log == [] then []
    else
      var e := log[|log| - 1];
      MouseMoves(log[..|log| - 1]) + (if e.MouseMove? then [Vec(e.dx, e.dy)] else [])
  }

  /** Every entry of the trace is the payload of a `mouse_move` in the log,
      and the trace is empty exactly when the log holds no `mouse_move`. */
  lemma {:induction false} MouseMovesContent(log: seq<Event>)
    ensures |MouseMoves(log)| <= |log|
    ensures forall i :: 0 <= i < |MouseMoves(log)| ==>
      MouseMove(MouseMoves(log)[i].x, MouseMoves(log)[i].y) in log
    ensures MouseMoves(log) == [] <==> forall j :: 0 <= j < |log| ==> !log[j].MouseMove?
  {
    if log != [] {
      var init := log[..|log| - 1];
      MouseMovesContent(init);
      assert init + [log[|log| - 1]] == log;
      forall i | 0 <= i < |MouseMoves(init)|
        ensures MouseMove(MouseMoves(init)[i].x, MouseMoves(init)[i].y) in log
      {
        var j :| 0 <= j < |init| && init[j] == MouseMove(MouseMoves(init)[i].x, MouseMoves(init)[i].y);
        assert log[j] == init[j];
      }
      forall j | 0 <= j < |init| && init[j].MouseMove?
        ensures exists k :: 0 <= k < |log| && log[k].MouseMove?
      {
        assert log[j] == init[j];
      }
    }
  }

  /** Appending one event extends the displacement trace only when that
      event is a `mouse_move`, and then by its payload. */
  lemma MouseMovesSnoc(log: seq<Event>, e: Event)
    ensures MouseMoves(log + [e]) == MouseMoves(log) + (if e.MouseMove? then [Vec(e.dx, e.dy)] else [])
  {
  }
}
