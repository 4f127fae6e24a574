/** The auto-click monitor of `monitoring/auto_click_monitor.py`: a thread
    that captures one window every interval, looks for one template, and on
    a match clicks its centre through a chain of injection methods (the
    ClassDD driver, then `win32api`, then `pydirectinput`), keeping the first
    that works. */
module AutoClick {
  import opened Basics
  import opened Vision
  import opened Desktop
  import opened Recognition
  import opened Executor

  // ---------------------------------------------------------------------
  // The ClassDD driver
  // ---------------------------------------------------------------------

  /** The module-wide `ClassDD` instance: not loaded, or loaded with the set
      of functions the DLL exports. */
  datatype Driver = Absent | Loaded(exports: set<string>)

  /** One driver call: whether it raised, and the calls that reached the
      DLL. */
  datatype Call = Call(raised: bool, trace: seq<Event>)

  /** The guard of `ClassDD.key`, `mouse` and `move`: `RuntimeError` before
      any call unless the DLL is loaded and exports the function; otherwise
      the call reaches the DLL, and raises when the DLL refuses it. */
  function Guarded(dd: Driver, os: Os, fn: string, e: Event): (c: Call)
    requires !e.Sleep?
    ensures c.raised <==> !(dd.Loaded? && fn in dd.exports) || Raises(os, e)
    ensures c.trace == if dd.Loaded? && fn in dd.exports then [e] else []
  {
    if dd.Loaded? && fn in dd.exports then Call(os.refuses(e), [e]) else Call(true, [])
  }

  function DdKey(dd: Driver, os: Os, code: int, action: int): (c: Call)
  {
    Guarded(dd, os, "DD_key", DriverKey(code, action))
  }

  function DdMouse(dd: Driver, os: Os, x: int, y: int, button: int, action: int): (c: Call)
  {
    Guarded(dd, os, "DD_mouse", DriverMouse(x, y, button, action))
  }

  function DdMove(dd: Driver, os: Os, x: int, y: int): (c: Call)
  {
    Guarded(dd, os, "DD_move", DriverMove(x, y))
  }

  // ---------------------------------------------------------------------
  // _try_click_methods
  // ---------------------------------------------------------------------

  /** A press and a release 0.02 s apart; a raise on either gives up. */
  function PressRelease(press: Call, release: Call): (r: Effect)
    ensures r.ok <==> !press.raised && !release.raised
  {
    if press.raised then Effect(false, press.trace)
    else Effect(!release.raised, press.trace + [Sleep(0.02)] + release.trace)
  }

  /** The ClassDD attempt: skipped unless loaded; a failed `move` is
      ignored (and its 0.01 s pause skipped); then `DD_mouse` down and up
      when the DLL has it, else `DD_key(201)` down and up. */
  function DriverAttempt(dd: Driver, os: Os, x: int, y: int): (r: Effect)
    ensures dd.Absent? ==> r == Effect(false, [])
    ensures r.ok ==> dd.Loaded? && ("DD_mouse" in dd.exports || "DD_key" in dd.exports)
  {
    if dd.Absent? then Effect(false, [])
    else
      var move := DdMove(dd, os, x, y);
      var moved := move.trace + (if move.raised then [] else [Sleep(0.01)]);
      var click :=
        if "DD_mouse" in dd.exports then PressRelease(DdMouse(dd, os, x, y, 1, 1), DdMouse(dd, os, x, y, 1, 2))
        else PressRelease(DdKey(dd, os, 201, 1), DdKey(dd, os, 201, 2));
      Effect(click.ok, moved + click.trace)
  }

  /** Where `GetCursorPos` finds the cursor when the `win32api` fallback
      starts: at the target when the driver attempt issued a `DD_move` that
      went through (it moves to absolute coordinates), otherwise where it
      was before the chain. */
  function DriverCursor(dd: Driver, os: Os, x: int, y: int): (c: (int, int))
    ensures DriverMove(x, y) in DriverAttempt(dd, os, x, y).trace && !Raises(os, DriverMove(x, y)) ==> c == (x, y)
    ensures !(DriverMove(x, y) in DriverAttempt(dd, os, x, y).trace && !Raises(os, DriverMove(x, y))) ==> c == os.cursor
  {
    if dd.Loaded? && !DdMove(dd, os, x, y).raised then (x, y) else os.cursor
  }

  /** The `win32api` attempt: read the cursor (`orig`), move it to the
      target, press and release the left button, then put it back at
      `orig` (a failure of that last move is ignored). */
  function Win32Attempt(os: Os, orig: (int, int), x: int, y: int): (r: Effect)
    ensures r.ok <==> !Raises(os, SetCursor(x, y)) && !Raises(os, MouseEvent(true)) && !Raises(os, MouseEvent(false))
    ensures r.ok ==> |r.trace| > 0 && r.trace[|r.trace| - 1] == SetCursor(orig.0, orig.1)
  {
    var move, down, up := SetCursor(x, y), MouseEvent(true), MouseEvent(false);
    if Raises(os, move) then Effect(false, [move])
    else if Raises(os, down) then Effect(false, [move, Sleep(0.01), down])
    else if Raises(os, up) then Effect(false, [move, Sleep(0.01), down, Sleep(0.02), up])
    else Effect(true, [move, Sleep(0.01), down, Sleep(0.02), up, Sleep(0.01), SetCursor(orig.0, orig.1)])
  }

  /** The `pydirectinput` attempt. */
  function InputAttempt(os: Os, x: int, y: int): (r: Effect)
    ensures r.ok <==> !Raises(os, InputMoveTo(x, y)) && !Raises(os, InputClick("left"))
  {
    var move, click := InputMoveTo(x, y), InputClick("left");
    if Raises(os, move) then Effect(false, [move])
    else if Raises(os, click) then Effect(false, [move, Sleep(0.01), click])
    else Effect(true, [move, Sleep(0.01), click])
  }

  /** `_try_click_methods`: the attempts in order, each run only after the
      ones before it failed; the result is whether one worked. */
  function TryClick(os: Os, dd: Driver, x: int, y: int): (r: Effect)
  {
    var a1 := DriverAttempt(dd, os, x, y);
    if a1.ok then a1
    else
      var a2 := Win32Attempt(os, DriverCursor(dd, os, x, y), x, y);
      if a2.ok then Effect(true, a1.trace + a2.trace)
      else
        var a3 := InputAttempt(os, x, y);
        Effect(a3.ok, a1.trace + a2.trace + a3.trace)
  }

  predicate DriverEvent(e: Event) { e.DriverMove? || e.DriverMouse? || e.DriverKey? }
  predicate Win32Event(e: Event) { e.SetCursor? || e.MouseEvent? }
  predicate InputEvent(e: Event) { e.InputMoveTo? || e.InputClick? }

  /** The calls that release a button (or the driver's key 201). */
  predicate Release(e: Event)
  {
    (e.DriverMouse? && e.action == 2) || e == DriverKey(201, 2) || e == MouseEvent(false) || e.InputClick?
  }

  lemma PressReleaseEvents(press: Call, release: Call)
    requires forall e :: e in press.trace ==> DriverEvent(e)
    requires forall e :: e in release.trace ==> DriverEvent(e)
    ensures forall e :: e in PressRelease(press, release).trace ==> e.Sleep? || DriverEvent(e)
  {
  }

  /** The driver attempt issues only driver calls (and pauses). */
  lemma DriverAttemptEvents(os: Os, dd: Driver, x: int, y: int)
    ensures forall e :: e in DriverAttempt(dd, os, x, y).trace ==> e.Sleep? || DriverEvent(e)
  {
    if dd.Loaded? {
      if "DD_mouse" in dd.exports {
        PressReleaseEvents(DdMouse(dd, os, x, y, 1, 1), DdMouse(dd, os, x, y, 1, 2));
      } else {
        PressReleaseEvents(DdKey(dd, os, 201, 1), DdKey(dd, os, 201, 2));
      }
    }
  }

  /** The `win32api` attempt issues only `win32api` calls (and pauses). */
  lemma Win32AttemptEvents(os: Os, orig: (int, int), x: int, y: int)
    ensures forall e :: e in Win32Attempt(os, orig, x, y).trace ==> e.Sleep? || Win32Event(e)
  {
  }

  /** The `pydirectinput` attempt issues only `pydirectinput` calls (and
      pauses). */
  lemma InputAttemptEvents(os: Os, x: int, y: int)
    ensures forall e :: e in InputAttempt(os, x, y).trace ==> e.Sleep? || InputEvent(e)
  {
  }

  /** The chain reports success exactly when one attempt worked. */
  lemma TryClickOkIffSomeAttempt(os: Os, dd: Driver, x: int, y: int)
    ensures TryClick(os, dd, x, y).ok <==>
            DriverAttempt(dd, os, x, y).ok || Win32Attempt(os, DriverCursor(dd, os, x, y), x, y).ok || InputAttempt(os, x, y).ok
  {
  }

  /** The fallback order, first step: once the driver attempt worked,
      neither `win32api` nor `pydirectinput` is called. */
  lemma TryClickStopsAfterDriver(os: Os, dd: Driver, x: int, y: int)
    requires DriverAttempt(dd, os, x, y).ok
    ensures forall e :: e in TryClick(os, dd, x, y).trace ==> !Win32Event(e) && !InputEvent(e)
  {
    DriverAttemptEvents(os, dd, x, y);
    assert TryClick(os, dd, x, y).trace == DriverAttempt(dd, os, x, y).trace;
  }

  /** The fallback order, second step: once `win32api` worked after a failed
      driver attempt, `pydirectinput` is not called. */
  lemma TryClickStopsAfterWin32(os: Os, dd: Driver, x: int, y: int)
    requires !DriverAttempt(dd, os, x, y).ok && Win32Attempt(os, DriverCursor(dd, os, x, y), x, y).ok
    ensures forall e :: e in TryClick(os, dd, x, y).trace ==> !InputEvent(e)
  {
    var a1, a2 := DriverAttempt(dd, os, x, y), Win32Attempt(os, DriverCursor(dd, os, x, y), x, y);
    DriverAttemptEvents(os, dd, x, y);
    Win32AttemptEvents(os, DriverCursor(dd, os, x, y), x, y);
    var t := TryClick(os, dd, x, y).trace;
    assert t == a1.trace + a2.trace;
    forall e | e in t ensures !InputEvent(e)
    {
      if e in a1.trace {
        assert e.Sleep? || DriverEvent(e);
      } else {
        assert e.Sleep? || Win32Event(e);
      }
    }
  }

  /** An unloaded driver is never called. */
  lemma TryClickAbsentDriverUncalled(os: Os, dd: Driver, x: int, y: int)
    requires dd.Absent?
    ensures forall e :: e in TryClick(os, dd, x, y).trace ==> !DriverEvent(e)
  {
    var a2, a3 := Win32Attempt(os, DriverCursor(dd, os, x, y), x, y), InputAttempt(os, x, y);
    Win32AttemptEvents(os, DriverCursor(dd, os, x, y), x, y);
    InputAttemptEvents(os, x, y);
    var rest := if a2.ok then a2.trace else a2.trace + a3.trace;
    assert TryClick(os, dd, x, y).trace == rest;
  }

  /** A reported success means a release was issued and went through. */
  lemma TryClickSuccessReleases(os: Os, dd: Driver, x: int, y: int)
    requires TryClick(os, dd, x, y).ok
    ensures exists e :: e in TryClick(os, dd, x, y).trace && Release(e) && !os.refuses(e)
  {
    var a1 := DriverAttempt(dd, os, x, y);
    if a1.ok {
      var release := if "DD_mouse" in dd.exports then DriverMouse(x, y, 1, 2) else DriverKey(201, 2);
      assert a1.trace[|a1.trace| - 1] == release;
    } else {
      var a2 := Win32Attempt(os, DriverCursor(dd, os, x, y), x, y);
      if a2.ok {
        assert a2.trace[4] == MouseEvent(false);
        assert MouseEvent(false) in TryClick(os, dd, x, y).trace;
      } else {
        var a3 := InputAttempt(os, x, y);
        assert a3.trace[2] == InputClick("left");
        assert InputClick("left") in TryClick(os, dd, x, y).trace;
      }
    }
  }

  /** The `win32api` fallback, when it is the one that works, releases the
      button and ends by putting the cursor back where it found it: at the
      target when the driver's `DD_move` went through, otherwise where it
      was before the chain. */
  lemma Win32FallbackRestoresCursor(os: Os, dd: Driver, x: int, y: int)
    requires !DriverAttempt(dd, os, x, y).ok && Win32Attempt(os, DriverCursor(dd, os, x, y), x, y).ok
    ensures var t := TryClick(os, dd, x, y).trace;
            |t| > 0 && MouseEvent(false) in t
    ensures var t, moved := TryClick(os, dd, x, y).trace, DriverMove(x, y) in DriverAttempt(dd, os, x, y).trace && !Raises(os, DriverMove(x, y));
            && (moved ==> t[|t| - 1] == SetCursor(x, y))
            && (!moved ==> t[|t| - 1] == SetCursor(os.cursor.0, os.cursor.1))
  {
    var a2 := Win32Attempt(os, DriverCursor(dd, os, x, y), x, y);
    assert a2.trace[4] == MouseEvent(false);
    assert TryClick(os, dd, x, y).trace == DriverAttempt(dd, os, x, y).trace + a2.trace;
  }

  /** A failed driver `move` never decides the driver attempt: with the
      mouse export present and both button calls accepted, the attempt
      works whatever became of the move. */
  lemma DriverMoveFailureIgnored(os: Os, exports: set<string>, x: int, y: int)
    requires "DD_mouse" in exports
    requires !os.refuses(DriverMouse(x, y, 1, 1)) && !os.refuses(DriverMouse(x, y, 1, 2))
    ensures DriverAttempt(Loaded(exports), os, x, y).ok
    ensures TryClick(os, Loaded(exports), x, y) == DriverAttempt(Loaded(exports), os, x, y)
  {
  }

  // ---------------------------------------------------------------------
  // One cycle of _monitoring_loop
  // ---------------------------------------------------------------------

  /** One turn of the loop body: whether the loop goes on, and the calls. */
  datatype Turn = Turn(continues: bool, trace: seq<Event>)

  /** The screen point clicked for a match: the box's centre, offset by the
      window's top-left corner. */
  function ClickTarget(rect: Rect, b: Box): (t: (int, int))
    ensures b.w > 0 ==> rect.left + b.x <= t.0 < rect.left + b.x + b.w
    ensures b.h > 0 ==> rect.top + b.y <= t.1 < rect.top + b.y + b.h
  {
    var c := Centre(b);
    (rect.left + c.0, rect.top + c.1)
  }

  /** Clicking a match at `b` and waiting the extra interval. */
  function Clicks(os: Os, dd: Driver, hwnd: int, interval: real, b: Box): (trace: seq<Event>)
    requires IsWindow(os, hwnd)
  {
    var target := ClickTarget(RectOf(os, hwnd), b);
    TryClick(os, dd, target.0, target.1).trace + [Sleep(interval)]
  }

  /** The body of the loop's `try` on a live window: capture it; on a
      failed capture wait one interval; otherwise look for the template
      with `TM_CCOEFF_NORMED`, click a match and wait an extra interval,
      and end with one interval. */
  function Look(hwnd: int, name: string, interval: real, threshold: real,
                ts: Templates, k: Kernels, dd: Driver, os: Os): (trace: seq<Event>)
    requires IsWindow(os, hwnd)
    ensures |trace| >= 2 && trace[0] == CaptureWindow(hwnd) && trace[|trace| - 1] == Sleep(interval)
    ensures CaptureOf(os, hwnd).None? ==> forall e :: e in trace ==> !e.Recognise?
  {
    var capture := CaptureOf(os, hwnd);
    if capture.None? then [CaptureWindow(hwnd), Sleep(interval)]
    else
      var m := TemplateMatch(ts, capture, name, threshold, CCoeffNormed, k);
      [CaptureWindow(hwnd), Recognise(name, false)] +
      (if m.found then Clicks(os, dd, hwnd, interval, m.box) else []) + [Sleep(interval)]
  }

  /** One iteration of `_monitoring_loop` after its `while self.running`
      test: a dead window ends the loop at once, a live one is looked at. */
  function Watch(hwnd: int, name: string, interval: real, threshold: real,
                 ts: Templates, k: Kernels, dd: Driver, os: Os): (t: Turn)
    ensures t.continues <==> IsWindow(os, hwnd)
    ensures !t.continues ==> t.trace == []
  {
    if !IsWindow(os, hwnd) then Turn(false, [])
    else Turn(true, Look(hwnd, name, interval, threshold, ts, k, dd, os))
  }

  /** What a turn does: a dead window stops the loop with no call at all;
      a live one always ends the turn with a wait, so the loop never spins;
      a failed capture skips recognition and clicking. */
  lemma WatchGuards(hwnd: int, name: string, interval: real, threshold: real,
                    ts: Templates, k: Kernels, dd: Driver, os: Os)
    ensures var t := Watch(hwnd, name, interval, threshold, ts, k, dd, os);
            && (t.continues <==> IsWindow(os, hwnd))
            && (!t.continues ==> t.trace == [])
            && (t.continues ==> |t.trace| >= 2 && t.trace[0] == CaptureWindow(hwnd) && t.trace[|t.trace| - 1] == Sleep(interval))
            && (CaptureOf(os, hwnd).None? ==> forall e :: e in t.trace ==> !e.Recognise? && !Release(e))
  {
  }

  /** On a match the click chain aims at the centre of the matched box in
      screen coordinates, which lies inside the box; without a match
      nothing is clicked. */
  lemma WatchClicksCentreOfMatch(hwnd: int, name: string, interval: real, threshold: real,
                                 ts: Templates, k: Kernels, dd: Driver, os: Os)
    requires IsWindow(os, hwnd) && CaptureOf(os, hwnd).Some?
    ensures var m := TemplateMatch(ts, CaptureOf(os, hwnd), name, threshold, CCoeffNormed, k);
            var t := Watch(hwnd, name, interval, threshold, ts, k, dd, os);
            var rect := RectOf(os, hwnd);
            var target := ClickTarget(rect, m.box);
            && (m.found ==> t.trace == [CaptureWindow(hwnd), Recognise(name, false)] +
                                       TryClick(os, dd, target.0, target.1).trace + [Sleep(interval), Sleep(interval)])
            && (m.found && m.box.w > 0 && m.box.h > 0 ==>
                  rect.left + m.box.x <= target.0 < rect.left + m.box.x + m.box.w &&
                  rect.top + m.box.y <= target.1 < rect.top + m.box.y + m.box.h)
            && (!m.found ==> t.trace == [CaptureWindow(hwnd), Recognise(name, false), Sleep(interval)])
  {
  }

  /** A turn on a captured window, given the outcome of its recognition. */
  lemma LookOf(hwnd: int, name: string, interval: real, threshold: real,
               ts: Templates, k: Kernels, dd: Driver, os: Os, m: Match, clicks: seq<Event>)
    requires IsWindow(os, hwnd) && CaptureOf(os, hwnd).Some?
    requires m == TemplateMatch(ts, CaptureOf(os, hwnd), name, threshold, CCoeffNormed, k)
    requires clicks == if m.found then Clicks(os, dd, hwnd, interval, m.box) else []
    ensures Look(hwnd, name, interval, threshold, ts, k, dd, os) ==
            [CaptureWindow(hwnd), Recognise(name, false)] + clicks + [Sleep(interval)]
  {
  }

  lemma LookNoCapture(hwnd: int, name: string, interval: real, threshold: real,
                      ts: Templates, k: Kernels, dd: Driver, os: Os)
    requires IsWindow(os, hwnd) && CaptureOf(os, hwnd).None?
    ensures Look(hwnd, name, interval, threshold, ts, k, dd, os) == [CaptureWindow(hwnd), Sleep(interval)]
  {
  }

  // ---------------------------------------------------------------------
  // The monitor object
  // ---------------------------------------------------------------------

  /** `AutoClickMonitor`: its target, template and timing, the `running`
      flag and the state of its current thread. */
  class AutoClickMonitor {
    const hwnd: int
    const templateName: string
    const interval: real
    const threshold: real
    var running: bool
    var liveness: Liveness

    /** `AutoClickMonitor(gui, hwnd, template_name, interval=5.0,
        threshold=0.7)`; no thread exists yet. */
    constructor (hwnd: int, templateName: string, interval: Option<real>, threshold: Option<real>)
      ensures this.hwnd == hwnd && this.templateName == templateName
      ensures this.interval == interval.GetOr(5.0) && this.threshold == threshold.GetOr(0.7)
      ensures !running && liveness == NotStarted
    {
      this.hwnd := hwnd;
      this.templateName := templateName;
      this.interval := interval.GetOr(5.0);
      this.threshold := threshold.GetOr(0.7);
      running := false;
      liveness := NotStarted;
    }

    /** `start()`: refused while the current thread is alive; otherwise a
        new thread starts with `running` set. */
    method Start() returns (started: bool)
      modifies this
      ensures started <==> old(liveness) != Alive
      ensures started ==> running && liveness == Alive
      ensures !started ==> running == old(running) && liveness == old(liveness)
    {
      if liveness == Alive {
        return false;
      }
      running := true;
      liveness := Alive;
      return true;
    }

    /** `stop()`: the thread sees it at its next loop test; the bounded
        `join` does not change what the thread does. */
    method Stop()
      modifies this
      ensures !running && liveness == old(liveness)
    {
      running := false;
    }

    /** `_try_click_methods(center_x, center_y, screen_x, screen_y)`. */
    method TryClickMethods(os: Os, dd: Driver, x: int, y: int) returns (clicked: bool, trace: seq<Event>)
      ensures clicked == TryClick(os, dd, x, y).ok && trace == TryClick(os, dd, x, y).trace
    {
      var driver := DriverAttempt(dd, os, x, y);
      trace := driver.trace;
      if driver.ok {
        return true, trace;
      }
      var orig := DriverCursor(dd, os, x, y);
      var win32 := Win32Attempt(os, orig, x, y);
      trace := trace + win32.trace;
      if win32.ok {
        return true, trace;
      }
      var input := InputAttempt(os, x, y);
      trace := trace + input.trace;
      if input.ok {
        return true, trace;
      }
      return false, trace;
    }

    /** The `if found:` branch: click the centre of the match on the
        screen, then wait one interval. */
    method ClickFound(os: Os, dd: Driver, b: Box) returns (trace: seq<Event>)
      requires IsWindow(os, hwnd)
      ensures trace == Clicks(os, dd, hwnd, interval, b)
    {
      var centre := Centre(b);
      var rect := RectOf(os, hwnd);
      var screenX, screenY := rect.left + centre.0, rect.top + centre.1;
      assert (screenX, screenY) == ClickTarget(rect, b);
      var clicked, attempts := TryClickMethods(os, dd, screenX, screenY);
      trace := attempts + [Sleep(interval)];
    }

    /** One step of the thread: the `while self.running` test, then one
        iteration of the loop body, with the GUI's recognition engine. */
    method Step(os: Os, dd: Driver, recognizer: ImageRecognition, k: Kernels) returns (trace: seq<Event>)
      requires liveness == Alive
      modifies this
      ensures !old(running) ==> liveness == Finished && !running && trace == []
      ensures old(running) ==>
                var t := Watch(hwnd, templateName, interval, threshold, recognizer.templates, k, dd, os);
                trace == t.trace && running == t.continues && liveness == (if t.continues then Alive else Finished)
    {
      if !running {
        liveness := Finished;
        return [];
      }
      if !IsWindow(os, hwnd) {
        running := false;
        liveness := Finished;
        return [];
      }
      trace := Inspect(os, dd, recognizer, k);
    }

    /** The body of the loop's `try` once the window is known to be live. */
    method Inspect(os: Os, dd: Driver, recognizer: ImageRecognition, k: Kernels) returns (trace: seq<Event>)
      requires IsWindow(os, hwnd)
      ensures trace == Look(hwnd, templateName, interval, threshold, recognizer.templates, k, dd, os)
    {
      var screenshot := CaptureOf(os, hwnd);
      if screenshot.None? {
        LookNoCapture(hwnd, templateName, interval, threshold, recognizer.templates, k, dd, os);
        return [CaptureWindow(hwnd), Sleep(interval)];
      }
      var m := recognizer.FindTemplate(screenshot, templateName, threshold, CCoeffNormed, k);
      var clicks := [];
      if m.found {
        clicks := ClickFound(os, dd, m.box);
      }
      LookOf(hwnd, templateName, interval, threshold, recognizer.templates, k, dd, os, m, clicks);
      trace := [CaptureWindow(hwnd), Recognise(templateName, false)] + clicks + [Sleep(interval)];
    }
  }
}
