/** The action executor of `core/action_executor.py`: mouse and keyboard
    messages sent to one target window. The executor's only state is its
    target handle (0 stands for Python's falsy `None`/`0`); every operation
    refuses to act without one. The operations that only read the handle are
    functions of it; the handle itself and the character loop of `send_text`
    live in the `ActionExecutor` class. */
module Executor {
  import opened Basics
  import opened Desktop

  /** What an operation returns and the external calls it made, in order. */
  datatype Effect = Effect(ok: bool, trace: seq<Event>)

  /** `return False` before anything is done. */
  const Refused := Effect(false, [])

  /** The button names `WindowUtils.send_mouse_click` accepts. */
  predicate KnownButton(button: string)
  {
    button == "left" || button == "right" || button == "middle"
  }

  /** The press types `WindowUtils.send_key` accepts. */
  predicate KnownPressType(pressType: string)
  {
    pressType == "click" || pressType == "down" || pressType == "up"
  }

  /** `click(x, y, button, ensure_foreground)`: optionally bring the window
      to the front and wait 0.1 s, then answer with `send_mouse_click`, which
      succeeds for a live window and a known button. */
  function Click(target: int, os: Os, x: int, y: int, button: string, ensureForeground: bool): (r: Effect)
    ensures target == 0 ==> r == Refused
    ensures target != 0 ==> (r.ok <==> IsWindow(os, target) && KnownButton(button))
    ensures BringToFront(target) in r.trace <==> target != 0 && ensureForeground
    ensures target != 0 ==> |r.trace| > 0 && r.trace[|r.trace| - 1] == MouseMessage(target, x, y, button)
  {
    if target == 0 then Refused
    else
      var front := if ensureForeground then [BringToFront(target), Sleep(0.1)] else [];
      Effect(IsWindow(os, target) && KnownButton(button), front + [MouseMessage(target, x, y, button)])
  }

  /** `press_key(key, press_type)`: the answer of `send_key`, which succeeds
      for a live window and a known press type. */
  function PressKey(target: int, os: Os, key: int, pressType: string): (r: Effect)
    ensures target == 0 ==> r == Refused
    ensures target != 0 ==> (r.ok <==> IsWindow(os, target) && KnownPressType(pressType))
    ensures target != 0 ==> r.trace == [KeyMessage(target, key, pressType)]
  {
    if target == 0 then Refused
    else Effect(IsWindow(os, target) && KnownPressType(pressType), [KeyMessage(target, key, pressType)])
  }

  /** `ord(c.upper())` lies in the printable ASCII range. */
  predicate Typable(c: char)
  {
    32 <= Upper(c) as int <= 126
  }

  /** The calls `send_text` makes for one character. */
  function CharTrace(target: int, c: char, delay: real): seq<Event>
  {
    (if Typable(c) then [KeyMessage(target, Upper(c) as int, "click")] else []) +
    (if delay > 0.0 then [Sleep(delay)] else [])
  }

  /** The calls `send_text` makes for a whole text, character by character. */
  function TextTrace(target: int, text: string, delay: real): (trace: seq<Event>)
  {
    if text == [] then []
    else TextTrace(target, text[..|text| - 1], delay) + CharTrace(target, text[|text| - 1], delay)
  }

  /** `send_text(text, delay)`: True once a handle is set, whatever the key
      presses answered. */
  function TextEffect(target: int, text: string, delay: real): (r: Effect)
    ensures target == 0 ==> r == Refused
    ensures target != 0 ==> r.ok
  {
    if target == 0 then Refused else Effect(true, TextTrace(target, text, delay))
  }

  /** The key codes pressed in a trace, in order. */
  function KeyCodes(trace: seq<Event>): seq<int>
  {
    if trace == [] then []
    else KeyCodes(trace[..|trace| - 1]) + (if trace[|trace| - 1].KeyMessage? then [trace[|trace| - 1].key] else [])
  }

  /** The codes of the typable characters, upper-cased, in text order. */
  function TypedCodes(text: string): (codes: seq<int>)
    ensures forall i :: 0 <= i < |codes| ==> 32 <= codes[i] <= 126
    ensures |codes| <= |text|
  {
    if text == [] then []
    else TypedCodes(text[..|text| - 1]) + (if Typable(text[|text| - 1]) then [Upper(text[|text| - 1]) as int] else [])
  }

  /** The number of pauses in a trace. */
  function SleepCount(trace: seq<Event>): nat
  {
    if trace == [] then 0
    else SleepCount(trace[..|trace| - 1]) + (if trace[|trace| - 1].Sleep? then 1 else 0)
  }

  lemma {:induction false} KeyCodesAppend(a: seq<Event>, b: seq<Event>)
    ensures KeyCodes(a + b) == KeyCodes(a) + KeyCodes(b)
    decreases |b|
  {
    if b == [] {
      assert a + b == a;
    } else {
      KeyCodesAppend(a, b[..|b| - 1]);
      var ab := a + b;
      assert ab[..|ab| - 1] == a + b[..|b| - 1];
      assert ab[|ab| - 1] == b[|b| - 1];
    }
  }

  lemma {:induction false} SleepCountAppend(a: seq<Event>, b: seq<Event>)
    ensures SleepCount(a + b) == SleepCount(a) + SleepCount(b)
    decreases |b|
  {
    if b == [] {
      assert a + b == a;
    } else {
      SleepCountAppend(a, b[..|b| - 1]);
      var ab := a + b;
      assert ab[..|ab| - 1] == a + b[..|b| - 1];
      assert ab[|ab| - 1] == b[|b| - 1];
    }
  }

  /** One character presses its upper-cased code when typable, then pauses
      when the delay is positive. */
  lemma CharPressesTypable(target: int, c: char, delay: real)
    ensures KeyCodes(CharTrace(target, c, delay)) == if Typable(c) then [Upper(c) as int] else []
    ensures SleepCount(CharTrace(target, c, delay)) == if delay > 0.0 then 1 else 0
  {
    var front := if Typable(c) then [KeyMessage(target, Upper(c) as int, "click")] else [];
    var back: seq<Event> := if delay > 0.0 then [Sleep(delay)] else [];
    assert CharTrace(target, c, delay) == front + back;
    KeyCodesAppend(front, back);
    SleepCountAppend(front, back);
    if Typable(c) {
      assert KeyCodes(front) == KeyCodes([]) + [Upper(c) as int];
      assert SleepCount(front) == SleepCount([]) + 0;
    }
    if delay > 0.0 {
      assert KeyCodes(back) == KeyCodes([]) + [];
      assert SleepCount(back) == SleepCount([]) + 1;
    }
  }

  /** `send_text` presses exactly the typable characters, upper-cased and in
      order. */
  lemma {:induction false} TextPressesTypable(target: int, text: string, delay: real)
    ensures KeyCodes(TextTrace(target, text, delay)) == TypedCodes(text)
  {
    if text != [] {
      var init, c := text[..|text| - 1], text[|text| - 1];
      TextPressesTypable(target, init, delay);
      KeyCodesAppend(TextTrace(target, init, delay), CharTrace(target, c, delay));
      CharPressesTypable(target, c, delay);
    }
  }

  /** `send_text` pauses once per character when the delay is positive, and
      never otherwise. */
  lemma {:induction false} TextPausesPerCharacter(target: int, text: string, delay: real)
    ensures SleepCount(TextTrace(target, text, delay)) == if delay > 0.0 then |text| else 0
  {
    if text != [] {
      var init, c := text[..|text| - 1], text[|text| - 1];
      TextPausesPerCharacter(target, init, delay);
      SleepCountAppend(TextTrace(target, init, delay), CharTrace(target, c, delay));
      CharPressesTypable(target, c, delay);
    }
  }

  /** `send_text` makes no call but "click" key presses to its window and
      pauses of the given delay. */
  lemma {:induction false} TextOnlyClicksAndPauses(target: int, text: string, delay: real)
    ensures forall e :: e in TextTrace(target, text, delay) ==>
              (e.KeyMessage? && e.hwnd == target && e.pressType == "click") || e == Sleep(delay)
  {
    if text != [] {
      TextOnlyClicksAndPauses(target, text[..|text| - 1], delay);
    }
  }

  /** For a text of printable ASCII characters, every character is typed:
      the codes are the upper-cased characters one for one. */
  lemma {:induction false} PrintableTextFullyTyped(text: string)
    requires forall i :: 0 <= i < |text| ==> 32 <= text[i] as int <= 126
    ensures |TypedCodes(text)| == |text|
    ensures forall i :: 0 <= i < |text| ==> TypedCodes(text)[i] == Upper(text[i]) as int
  {
    if text != [] {
      var init := text[..|text| - 1];
      PrintableTextFullyTyped(init);
      var c := text[|text| - 1];
      assert Typable(c);
      forall i | 0 <= i < |init| ensures text[i] == init[i] { }
    }
  }

  /** `move_window(x, y, width, height)`: a missing width or height is taken
      from the current rectangle (reading it raises for a dead window); the
      move raises for a dead window or when refused; any exception is False. */
  function MoveWindow(target: int, os: Os, x: int, y: int, width: Option<int>, height: Option<int>): (r: Effect)
    ensures target == 0 ==> r == Refused
    ensures r.ok ==> IsWindow(os, target) && |r.trace| == 1 && r.trace[0].WindowMove? && !os.refuses(r.trace[0])
  {
    if target == 0 then Refused
    else if (width.None? || height.None?) && !IsWindow(os, target) then Effect(false, [])
    else
      var w := if width.Some? then width.value else RectOf(os, target).right - RectOf(os, target).left;
      var h := if height.Some? then height.value else RectOf(os, target).bottom - RectOf(os, target).top;
      var e := WindowMove(target, x, y, w, h);
      Effect(IsWindow(os, target) && !os.refuses(e), [e])
  }

  /** The move goes to `(x, y)` with the supplied size; a missing width keeps
      the current width `right - left`, a missing height the current height
      `bottom - top`. */
  lemma MoveWindowSize(target: int, os: Os, x: int, y: int, width: Option<int>, height: Option<int>)
    requires target != 0 && IsWindow(os, target)
    ensures var r := MoveWindow(target, os, x, y, width, height);
            var rect := RectOf(os, target);
            && |r.trace| == 1 && r.trace[0].WindowMove?
            && r.trace[0].hwnd == target && r.trace[0].x == x && r.trace[0].y == y
            && r.trace[0].width == (if width.Some? then width.value else rect.right - rect.left)
            && r.trace[0].height == (if height.Some? then height.value else rect.bottom - rect.top)
            && (r.ok <==> !os.refuses(r.trace[0]))
  {
  }

  /** The keyword arguments `execute_action` reads; `None` is an absent key. */
  datatype Params = Params(
    x: Option<int>, y: Option<int>, button: Option<string>, ensureForeground: Option<bool>,
    key: Option<int>, pressType: Option<string>, text: Option<string>, delay: Option<real>,
    width: Option<int>, height: Option<int>, seconds: Option<real>)

  /** The action types `execute_action` knows. */
  predicate KnownKind(kind: string)
  {
    kind == "click" || kind == "key" || kind == "text" || kind == "move" || kind == "wait"
  }

  /** `execute_action(action_type, **params)`: each known type calls its
      operation with the supplied parameters, the defaults of `params.get`
      standing in for absent ones. */
  function ExecuteAction(target: int, os: Os, kind: string, p: Params): (r: Effect)
    ensures target == 0 || !KnownKind(kind) ==> r == Refused
    ensures target != 0 && kind == "click" ==>
              && |r.trace| > 0
              && r.trace[|r.trace| - 1] == MouseMessage(target, p.x.GetOr(0), p.y.GetOr(0), p.button.GetOr("left"))
              && (BringToFront(target) in r.trace <==> p.ensureForeground.GetOr(true))
              && (r.ok <==> IsWindow(os, target) && KnownButton(p.button.GetOr("left")))
    ensures target != 0 && kind == "key" ==>
              && r.trace == [KeyMessage(target, p.key.GetOr(0), p.pressType.GetOr("click"))]
              && (r.ok <==> IsWindow(os, target) && KnownPressType(p.pressType.GetOr("click")))
    ensures target != 0 && kind == "text" ==>
              && r.ok
              && KeyCodes(r.trace) == TypedCodes(p.text.GetOr(""))
              && SleepCount(r.trace) == if p.delay.GetOr(0.01) > 0.0 then |p.text.GetOr("")| else 0
    ensures target != 0 && kind == "move" && !IsWindow(os, target) ==> !r.ok
    ensures target != 0 && kind == "move" && IsWindow(os, target) ==>
              var rect := RectOf(os, target);
              var e := WindowMove(target, p.x.GetOr(0), p.y.GetOr(0),
                                  p.width.GetOr(rect.right - rect.left), p.height.GetOr(rect.bottom - rect.top));
              r.trace == [e] && (r.ok <==> !os.refuses(e))
    ensures target != 0 && kind == "wait" ==> r == Effect(true, [Sleep(p.seconds.GetOr(1.0))])
  {
    if target == 0 then Refused
    else if kind == "click" then
      Click(target, os, p.x.GetOr(0), p.y.GetOr(0), p.button.GetOr("left"), p.ensureForeground.GetOr(true))
    else if kind == "key" then PressKey(target, os, p.key.GetOr(0), p.pressType.GetOr("click"))
    else if kind == "text" then
      TextPressesTypable(target, p.text.GetOr(""), p.delay.GetOr(0.01));
      TextPausesPerCharacter(target, p.text.GetOr(""), p.delay.GetOr(0.01));
      TextEffect(target, p.text.GetOr(""), p.delay.GetOr(0.01))
    else if kind == "move" then
      MoveWindow(target, os, p.x.GetOr(0), p.y.GetOr(0), p.width, p.height)
    else if kind == "wait" then Effect(true, [Sleep(p.seconds.GetOr(1.0))])
    else Refused
  }

  const NoParams := Params(None, None, None, None, None, None, None, None, None, None, None)

  /** The defaults: with no parameters a click is a left click at (0, 0)
      after bringing the window to the front, a key action clicks key 0, a
      text action types nothing, a move keeps the window's size and moves it
      to (0, 0), and a wait pauses one second. */
  lemma ExecuteActionDefaults(target: int, os: Os)
    requires target != 0 && IsWindow(os, target)
    ensures ExecuteAction(target, os, "click", NoParams) ==
              Effect(true, [BringToFront(target), Sleep(0.1), MouseMessage(target, 0, 0, "left")])
    ensures ExecuteAction(target, os, "key", NoParams) == Effect(true, [KeyMessage(target, 0, "click")])
    ensures ExecuteAction(target, os, "text", NoParams) == Effect(true, [])
    ensures var rect := RectOf(os, target);
            var e := WindowMove(target, 0, 0, rect.right - rect.left, rect.bottom - rect.top);
            ExecuteAction(target, os, "move", NoParams) == Effect(!os.refuses(e), [e])
    ensures ExecuteAction(target, os, "wait", NoParams) == Effect(true, [Sleep(1.0)])
  {
  }

  /** `ActionExecutor`: the target handle and the operations that loop. */
  class ActionExecutor {
    var hwnd: int

    /** `ActionExecutor(hwnd=None)`. */
    constructor (hwnd: int)
      ensures this.hwnd == hwnd
    {
      this.hwnd := hwnd;
    }

    /** `set_target_window(hwnd)`. */
    method SetTargetWindow(h: int)
      modifies this
      ensures hwnd == h
    {
      hwnd := h;
    }

    /** `send_text(text, delay)`: one key click per typable character, each
        followed by the delay when it is positive. */
    method SendText(text: string, delay: real) returns (r: Effect)
      ensures r == TextEffect(hwnd, text, delay)
    {
      if hwnd == 0 {
        return Refused;
      }
      var trace: seq<Event> := [];
      for i := 0 to |text|
        invariant trace == TextTrace(hwnd, text[..i], delay)
      {
        assert text[..i + 1][..i] == text[..i];
        var code := Upper(text[i]) as int;
        if 32 <= code <= 126 {
          trace := trace + [KeyMessage(hwnd, code, "click")];
        }
        if delay > 0.0 {
          trace := trace + [Sleep(delay)];
        }
      }
      assert text[..|text|] == text;
      r := Effect(true, trace);
    }
  }
}
