/** The desktop the engine acts on, as data: a table of top-level windows
    (handle, title, class, visibility, rectangle and what a capture of it
    yields), the cursor position, and which external calls raise or report
    failure. Every external call the engine makes is recorded as an `Event`,
    so an operation's effect is the sequence of events it issues. */
module Desktop {
  import opened Basics
  import opened Vision

  /** `GetWindowRect`: `(left, top, right, bottom)` in screen pixels. */
  datatype Rect = Rect(left: int, top: int, right: int, bottom: int)

  /** One top-level window. `capture` is what `capture_window` returns for it
      (`None` when the capture fails). */
  datatype Window = Window(hwnd: int, title: string, className: string, visible: bool,
                           rect: Rect, capture: Option<Image>)

  /** The state of a Python `threading.Thread` as `is_alive()` and `start()`
      see it. */
  datatype Liveness = NotStarted | Alive | Finished

  /** An external call issued by the engine, in the order issued. */
  datatype Event =
    | FindExact(title: string, className: Option<string>)      // win32gui.FindWindow
    | EnumTitles(pattern: string)                              // EnumWindows partial-title scan
    | CaptureWindow(hwnd: int)                                 // WindowUtils.capture_window
    | Recognise(template: string, histogram: bool)             // one recognition call on a capture
    | BringToFront(hwnd: int)                                  // WindowUtils.set_foreground
    | SetForeground(hwnd: int)                                 // win32gui.SetForegroundWindow
    | MouseMessage(hwnd: int, x: int, y: int, button: string)  // WindowUtils.send_mouse_click
    | KeyMessage(hwnd: int, key: int, pressType: string)       // WindowUtils.send_key
    | WindowMove(hwnd: int, x: int, y: int, width: int, height: int)   // win32gui.MoveWindow
    | ImportInput                                              // import pydirectinput
    | InputMoveTo(x: int, y: int)                              // pydirectinput.moveTo
    | InputClick(button: string)                               // pydirectinput.click
    | InputPress(keyName: string)                              // pydirectinput.press
    | InputKeyDown(keyName: string)                            // pydirectinput.keyDown
    | InputKeyUp(keyName: string)                              // pydirectinput.keyUp
    | InputWrite(text: string, pause: real)                    // pydirectinput.write under PAUSE
    | SetCursor(x: int, y: int)                                // win32api.SetCursorPos
    | MouseEvent(down: bool)                                   // win32api.mouse_event, left button
    | DriverMove(x: int, y: int)                               // ClassDD DD_move
    | DriverMouse(x: int, y: int, code: int, action: int)      // ClassDD DD_mouse
    | DriverKey(code: int, action: int)                        // ClassDD DD_key
    | Sleep(seconds: real)                                     // time.sleep

  /** The desktop as the engine finds it. `refuses(e)` says that the call `e`
      raises (or, for the calls that answer with a boolean, answers False). */
  datatype Os = Os(windows: seq<Window>, cursor: (int, int), refuses: Event -> bool)

  /** The first window of the table with handle `h`. */
  function Lookup(windows: seq<Window>, h: int): (r: Option<Window>)
    ensures r.Some? ==> r.value.hwnd == h && r.value in windows
    ensures r.None? ==> forall i :: 0 <= i < |windows| ==> windows[i].hwnd != h
  {
    if windows == [] then None
    else if windows[0].hwnd == h then Some(windows[0])
    else Lookup(windows[1..], h)
  }

  /** `win32gui.IsWindow(h)` (a zero handle is never a window). */
  predicate IsWindow(os: Os, h: int)
  {
    h != 0 && Lookup(os.windows, h).Some?
  }

  function RectOf(os: Os, h: int): Rect
    requires IsWindow(os, h)
  {
    Lookup(os.windows, h).value.rect
  }

  /** `WindowUtils.capture_window(h)`: `None` for an invalid handle. */
  function CaptureOf(os: Os, h: int): (r: Option<Image>)
    ensures !IsWindow(os, h) ==> r.None?
  {
    if IsWindow(os, h) then Lookup(os.windows, h).value.capture else None
  }

  /** The test of `win32gui.FindWindow(className, title)`: exactly this
      title, and this class when one is given. */
  predicate ExactMatch(w: Window, title: string, className: Option<string>)
  {
    w.title == title && (className.None? || className.value == w.className)
  }

  /** Window `i` is the first exact match of the table. */
  predicate FirstExact(windows: seq<Window>, i: int, title: string, className: Option<string>)
  {
    0 <= i < |windows| && ExactMatch(windows[i], title, className) &&
    forall j :: 0 <= j < i ==> !ExactMatch(windows[j], title, className)
  }

  /** `win32gui.FindWindow(className, title)`: the handle of the first window
      with exactly this title (and this class, when one is given), or 0 when
      there is none. */
  function FindExactHandle(windows: seq<Window>, title: string, className: Option<string>): (h: int)
    ensures (forall i :: 0 <= i < |windows| ==> !ExactMatch(windows[i], title, className)) ==> h == 0
    ensures (exists i :: 0 <= i < |windows| && ExactMatch(windows[i], title, className)) ==>
              exists i :: FirstExact(windows, i, title, className) && h == windows[i].hwnd
  {
    if windows == [] then 0
    else if ExactMatch(windows[0], title, className) then
      assert FirstExact(windows, 0, title, className);
      windows[0].hwnd
    else
      var h := FindExactHandle(windows[1..], title, className);
      FindExactShift(windows, title, className, h);
      h
  }

  lemma FindExactShift(windows: seq<Window>, title: string, className: Option<string>, h: int)
    requires windows != [] && !ExactMatch(windows[0], title, className)
    requires (exists i :: 0 <= i < |windows[1..]| && ExactMatch(windows[1..][i], title, className)) ==>
               exists i :: FirstExact(windows[1..], i, title, className) && h == windows[1..][i].hwnd
    ensures (forall i :: 0 <= i < |windows| ==> !ExactMatch(windows[i], title, className)) ||
            exists i :: FirstExact(windows, i, title, className) && h == windows[i].hwnd
  {
    if i :| 0 <= i < |windows| && ExactMatch(windows[i], title, className) {
      assert windows[1..][i - 1] == windows[i];
      var k :| FirstExact(windows[1..], k, title, className) && h == windows[1..][k].hwnd;
      forall j | 0 <= j < k + 1 ensures !ExactMatch(windows[j], title, className)
      {
        if j > 0 { assert windows[j] == windows[1..][j - 1]; }
      }
      assert FirstExact(windows, k + 1, title, className);
    }
  }

  /** The test of `find_windows_by_title(pattern)`'s callback: visible, with
      `pattern` in the title. */
  predicate Shown(w: Window, pattern: string)
  {
    w.visible && Contains(w.title, pattern)
  }

  /** The number of windows of the table that pass the callback's test. */
  function ShownCount(windows: seq<Window>, pattern: string): nat
  {
    if windows == [] then 0
    else ShownCount(windows[..|windows| - 1], pattern) + (if Shown(windows[|windows| - 1], pattern) then 1 else 0)
  }

  /** `find_windows_by_title(pattern)`: the handles of the visible windows
      whose title contains `pattern`, in enumeration order. */
  function TitleMatches(windows: seq<Window>, pattern: string): (hs: seq<int>)
    ensures |hs| == ShownCount(windows, pattern)
    ensures forall h :: h in hs ==> exists i :: 0 <= i < |windows| && windows[i].hwnd == h && Shown(windows[i], pattern)
    ensures forall i :: 0 <= i < |windows| && Shown(windows[i], pattern) ==>
              ShownCount(windows[..i], pattern) < |hs| && hs[ShownCount(windows[..i], pattern)] == windows[i].hwnd
  {
    if windows == [] then []
    else
      var init, w := windows[..|windows| - 1], windows[|windows| - 1];
      var rest := TitleMatches(init, pattern);
      assert forall i :: 0 <= i < |init| ==> init[i] == windows[i] && init[..i] == windows[..i];
      assert windows[..|windows| - 1] == init;
      if Shown(w, pattern) then rest + [w.hwnd] else rest
  }

  /** The first handle `find_windows_by_title` lists is that of the first
      window passing its test; the list is empty exactly when none does. */
  lemma TitleMatchesFirst(windows: seq<Window>, pattern: string)
    ensures TitleMatches(windows, pattern) == [] <==> forall i :: 0 <= i < |windows| ==> !Shown(windows[i], pattern)
    ensures forall i :: 0 <= i < |windows| && Shown(windows[i], pattern) &&
                        (forall j :: 0 <= j < i ==> !Shown(windows[j], pattern)) ==>
              TitleMatches(windows, pattern)[0] == windows[i].hwnd
  {
    forall i | 0 <= i < |windows| && Shown(windows[i], pattern) && (forall j :: 0 <= j < i ==> !Shown(windows[j], pattern))
      ensures TitleMatches(windows, pattern)[0] == windows[i].hwnd
    {
      NoneShown(windows[..i], pattern);
    }
  }

  lemma {:induction false} NoneShown(windows: seq<Window>, pattern: string)
    requires forall j :: 0 <= j < |windows| ==> !Shown(windows[j], pattern)
    ensures ShownCount(windows, pattern) == 0
  {
    if windows != [] {
      NoneShown(windows[..|windows| - 1], pattern);
    }
  }

  /** A call raises when the desktop refuses it; pauses never raise. */
  predicate Raises(os: Os, e: Event)
  {
    !e.Sleep? && os.refuses(e)
  }

  /** Issue `calls` in order until one raises: whether all went through, and
      the calls made (the one that raised included). */
  function Issue(os: Os, calls: seq<Event>): (r: (bool, seq<Event>))
    ensures r.1 <= calls
    ensures r.0 <==> forall i :: 0 <= i < |calls| ==> !Raises(os, calls[i])
    ensures r.0 ==> r.1 == calls
    ensures !r.0 ==> |r.1| > 0 && Raises(os, r.1[|r.1| - 1]) && forall i :: 0 <= i < |r.1| - 1 ==> !Raises(os, r.1[i])
  {
    if calls == [] then (true, [])
    else if Raises(os, calls[0]) then (false, [calls[0]])
    else
      var rest := Issue(os, calls[1..]);
      assert forall i :: 1 <= i < |calls| ==> calls[i] == calls[1..][i - 1];
      (rest.0, [calls[0]] + rest.1)
  }
}
