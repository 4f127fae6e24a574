/** The per-program monitor of `monitoring/program_monitor.py`: a thread that
    keeps one window located, captures it every interval, runs each of its
    rules' recognitions on the capture, and on a match drives the window with
    the rule's actions through synthetic input. */
module ProgramMonitoring {
  import opened Basics
  import opened Vision
  import opened Desktop
  import opened Recognition
  import opened Executor

  // ---------------------------------------------------------------------
  // Configuration
  // ---------------------------------------------------------------------

  /** The `params` of a rule action; `None` is an absent key. */
  datatype ActionParams = ActionParams(
    x: Option<real>, y: Option<real>, relative: Option<bool>, button: Option<string>,
    key: Option<int>, pressType: Option<string>, text: Option<string>, delay: Option<real>,
    seconds: Option<real>)

  /** One action of a rule: its `type`, `params`, post-action `delay` and
      `required` flag. */
  datatype Action = Action(kind: Option<string>, params: ActionParams, delay: Option<real>, required: Option<bool>)

  /** One rule: a template to look for and what to do when it is seen. */
  datatype Rule = Rule(template: Option<string>, actions: seq<Action>, matchMethod: Option<string>,
                       threshold: Option<real>, clickOnImage: Option<bool>)

  /** A program configuration; an absent `rules` key is an empty list. */
  datatype Config = Config(name: Option<string>, windowTitle: Option<string>, windowClass: Option<string>,
                           interval: Option<real>, rules: seq<Rule>)

  /** What a monitor keeps from its configuration, defaults applied. */
  datatype Settings = Settings(title: string, windowClass: Option<string>, interval: real, rules: seq<Rule>)

  /** The defaults of the monitor's constructor. */
  function SettingsOf(c: Config): (s: Settings)
    ensures s.title == if c.windowTitle.Some? then c.windowTitle.value else ""
    ensures s.interval == if c.interval.Some? then c.interval.value else 1.0
    ensures s.windowClass == c.windowClass && s.rules == c.rules
  {
    Settings(c.windowTitle.GetOr(""), c.windowClass, c.interval.GetOr(1.0), c.rules)
  }

  // ---------------------------------------------------------------------
  // Coordinates and key names
  // ---------------------------------------------------------------------

  /** The screen point a click action aims at: relative to the matched box
      when a position is known and `relative` is set, else the raw `x`/`y`;
      then offset by the window's top-left corner, with Python's `int()`
      truncating at each conversion. */
  function ScreenPoint(rect: Rect, p: ActionParams, position: Option<Box>): (pt: (int, int))
  {
    if position.Some? && p.relative.GetOr(false) then
      var b := position.value;
      (rect.left + b.x + Scaled(b.w, p.x.GetOr(0.0)), rect.top + b.y + Scaled(b.h, p.y.GetOr(0.0)))
    else
      (rect.left + Trunc(p.x.GetOr(0.0)), rect.top + Trunc(p.y.GetOr(0.0)))
  }

  /** A relative click with fractions in [0, 1) lands inside the matched box,
      translated to the screen by the window's corner. */
  lemma RelativeClickInsideBox(rect: Rect, p: ActionParams, b: Box)
    requires p.relative == Some(true) && b.w > 0 && b.h > 0
    requires 0.0 <= p.x.GetOr(0.0) < 1.0 && 0.0 <= p.y.GetOr(0.0) < 1.0
    ensures var pt := ScreenPoint(rect, p, Some(b));
            && rect.left + b.x <= pt.0 < rect.left + b.x + b.w
            && rect.top + b.y <= pt.1 < rect.top + b.y + b.h
  {
    ScaledFractionBelow(b.w, p.x.GetOr(0.0));
    ScaledFractionBelow(b.h, p.y.GetOr(0.0));
  }

  /** `int(n * f)`: a box extent scaled by a fraction, truncated. */
  function Scaled(n: int, f: real): (r: int)
  {
    Trunc(n as real * f)
  }

  lemma ScaledFractionBelow(n: int, f: real)
    requires n > 0 && 0.0 <= f < 1.0
    ensures 0 <= Scaled(n, f) < n
  {
    assert n as real * f < n as real * 1.0;
    assert 0.0 <= n as real * f;
  }

  /** A relative click is the matched box's corner plus the box's extent
      scaled by the fraction and truncated, offset by the window's corner. */
  lemma RelativeClickOffsetsByBox(rect: Rect, p: ActionParams, b: Box)
    requires p.relative == Some(true)
    ensures ScreenPoint(rect, p, Some(b)) ==
            (rect.left + b.x + Scaled(b.w, p.x.GetOr(0.0)), rect.top + b.y + Scaled(b.h, p.y.GetOr(0.0)))
  {
    assert Some(b).Some? && Some(b).value == b && p.relative.GetOr(false);
  }

  /** Without a position, or without `relative`, the raw coordinates (0 when
      absent) are truncated toward zero and offset by the window's corner. */
  lemma AbsoluteClickOffsetsByCorner(rect: Rect, p: ActionParams, position: Option<Box>)
    requires position.None? || !p.relative.GetOr(false)
    ensures ScreenPoint(rect, p, position) == (rect.left + Trunc(p.x.GetOr(0.0)), rect.top + Trunc(p.y.GetOr(0.0)))
  {
  }

  /** Whole coordinates are kept exactly, fractional ones lose their
      fraction toward zero (10.7 gives 10, -0.5 gives 0), and an absent one
      is 0. */
  lemma AbsoluteClickTruncates(rect: Rect, p: ActionParams, x: int)
    requires !p.relative.GetOr(false)
    ensures p.x == Some(x as real) ==> ScreenPoint(rect, p, None).0 == rect.left + x
    ensures p.x == Some(10.7) ==> ScreenPoint(rect, p, None).0 == rect.left + 10
    ensures p.x == Some(-0.5) ==> ScreenPoint(rect, p, None).0 == rect.left
    ensures p.x.None? ==> ScreenPoint(rect, p, None).0 == rect.left
  {
    AbsoluteClickOffsetsByCorner(rect, p, None);
    assert Trunc(x as real) == x;
    assert Trunc(10.7) == 10;
    assert Trunc(-0.5) == 0;
    assert Trunc(0.0) == 0;
  }

  /** The name `pydirectinput` is given for a key code: the character itself
      for printable ASCII, otherwise `"{VK<code>}"`. */
  function KeyName(key: int): (name: string)
    ensures 32 <= key <= 126 ==> name == [key as char]
    ensures !(32 <= key <= 126) ==> name == "{VK" + DecimalString(key) + "}"
  {
    if 32 <= key <= 126 then [key as char] else "{VK" + DecimalString(key) + "}"
  }

  /** The name of a non-printable, non-negative code is `{VK…}` around
      digits that read back as the code. */
  lemma KeyNameReadsBack(key: int)
    requires key > 126
    ensures var name := KeyName(key);
            |name| >= 5 && name[..3] == "{VK" && name[|name| - 1] == '}' && DigitsValue(name[3..|name| - 1]) == key
  {
    var name := KeyName(key);
    assert name[3..|name| - 1] == Digits(key);
    DigitsRoundTrip(key);
  }

  lemma DecimalStringInjective(a: int, b: int)
    requires DecimalString(a) == DecimalString(b)
    ensures a == b
  {
    assert DecimalString(a)[0] == DecimalString(b)[0];
    assert a >= 0 <==> DecimalString(a)[0] != '-';
    assert b >= 0 <==> DecimalString(b)[0] != '-';
    if a >= 0 {
      DigitsRoundTrip(a);
      DigitsRoundTrip(b);
    } else {
      assert Digits(-a) == DecimalString(a)[1..];
      assert Digits(-b) == DecimalString(b)[1..];
      DigitsRoundTrip(-a);
      DigitsRoundTrip(-b);
    }
  }

  /** Different key codes never share a name, so no key press is mistaken
      for another. */
  lemma KeyNameInjective(a: int, b: int)
    requires KeyName(a) == KeyName(b)
    ensures a == b
  {
    assert 32 <= a <= 126 <==> |KeyName(a)| == 1;
    assert 32 <= b <= 126 <==> |KeyName(b)| == 1;
    if 32 <= a <= 126 {
      assert KeyName(a)[0] == a as char;
    } else {
      var na, nb := KeyName(a), KeyName(b);
      assert na[3..|na| - 1] == DecimalString(a);
      assert nb[3..|nb| - 1] == DecimalString(b);
      DecimalStringInjective(a, b);
    }
  }

  // ---------------------------------------------------------------------
  // execute_actions
  // ---------------------------------------------------------------------

  /** How one action ended: normally with its `success` flag, or with an
      exception caught by `execute_actions`. */
  datatype Outcome = Done(success: bool) | Threw

  datatype Step = Step(outcome: Outcome, trace: seq<Event>)

  /** The calls one action makes once the window rectangle is known, and the
      `success` flag it sets when none raises: the window is brought to the
      front, and `pydirectinput` is imported (which raises when it is not
      installed) before the action's own calls. */
  function ActionCalls(rect: Rect, hwnd: int, a: Action, position: Option<Box>): (r: (bool, seq<Event>))
    ensures r.0 <==> KnownAction(a)
    ensures |r.1| >= 3 && r.1[..3] == [SetForeground(hwnd), Sleep(0.5), ImportInput]
    ensures a.delay.Some? ==> r.1[|r.1| - 1] == Sleep(a.delay.value)
  {
    var p := a.params;
    var body: (bool, seq<Event>) :=
      if a.kind == Some("click") then
        var pt := ScreenPoint(rect, p, position);
        (true, [InputMoveTo(pt.0, pt.1), Sleep(0.2), InputClick(LowerString(p.button.GetOr("left")))])
      else if a.kind == Some("key") then
        var name := KeyName(p.key.GetOr(0));
        var pressType := p.pressType.GetOr("click");
        (true, if pressType == "click" then [InputPress(name)]
               else if pressType == "down" then [InputKeyDown(name)]
               else if pressType == "up" then [InputKeyUp(name)]
               else [])
      else if a.kind == Some("text") then (true, [InputWrite(p.text.GetOr(""), p.delay.GetOr(0.01))])
      else if a.kind == Some("wait") then (true, [Sleep(p.seconds.GetOr(1.0))])
      else (false, []);
    (body.0, [SetForeground(hwnd), Sleep(0.5), ImportInput] + body.1 + (if a.delay.Some? then [Sleep(a.delay.value)] else []))
  }

  /** One iteration of the `execute_actions` loop: reading the rectangle of
      a dead (or zero) handle raises before any call. */
  function ActionRun(os: Os, hwnd: int, a: Action, position: Option<Box>): (s: Step)
    ensures !IsWindow(os, hwnd) ==> s == Step(Threw, [])
    ensures s.outcome.Done? ==> IsWindow(os, hwnd) && s.trace == ActionCalls(RectOf(os, hwnd), hwnd, a, position).1
    ensures s.outcome.Done? && s.outcome.success <==> IsWindow(os, hwnd) && s.outcome.Done? && KnownAction(a)
  {
    if !IsWindow(os, hwnd) then Step(Threw, [])
    else
      var plan := ActionCalls(RectOf(os, hwnd), hwnd, a, position);
      var issued := Issue(os, plan.1);
      Step(if issued.0 then Done(plan.0) else Threw, issued.1)
  }

  /** The action types `execute_actions` handles. */
  predicate KnownAction(a: Action)
  {
    a.kind == Some("click") || a.kind == Some("key") || a.kind == Some("text") || a.kind == Some("wait")
  }

  /** One action as the loop of `execute_actions` sees it: how it ended and
      whether it is `required`. */
  datatype Run = Run(step: Step, required: bool)

  /** A run that raised while `required` abandons the rest of the list. */
  predicate Abandons(r: Run)
  {
    r.step.outcome.Threw? && r.required
  }

  /** Every action of the list, run on its own. */
  function Runs(os: Os, hwnd: int, actions: seq<Action>, position: Option<Box>): (rs: seq<Run>)
    ensures |rs| == |actions|
  {
    if actions == [] then []
    else [Run(ActionRun(os, hwnd, actions[0], position), actions[0].required.GetOr(false))] +
         Runs(os, hwnd, actions[1..], position)
  }

  lemma {:induction false} RunsAt(os: Os, hwnd: int, actions: seq<Action>, position: Option<Box>, i: nat)
    requires i < |actions|
    ensures Runs(os, hwnd, actions, position)[i] ==
            Run(ActionRun(os, hwnd, actions[i], position), actions[i].required.GetOr(false))
  {
    if i > 0 {
      RunsAt(os, hwnd, actions[1..], position, i - 1);
    }
  }

  /** The loop of `execute_actions`: each run's calls, stopping after the
      first run that abandons. */
  function Chain(runs: seq<Run>): seq<Event>
  {
    if runs == [] then []
    else runs[0].step.trace + (if Abandons(runs[0]) then [] else Chain(runs[1..]))
  }

  /** `execute_actions(actions, position)`: the calls made, in order. */
  function RunActions(os: Os, hwnd: int, actions: seq<Action>, position: Option<Box>): (trace: seq<Event>)
  {
    Chain(Runs(os, hwnd, actions, position))
  }

  /** Every run to its end, one after the other, with no abandonment. */
  function Concat(runs: seq<Run>): seq<Event>
  {
    if runs == [] then []
    else Concat(runs[..|runs| - 1]) + runs[|runs| - 1].step.trace
  }

  /** The number of runs the loop makes: up to and including the first that
      abandons, or all of them. */
  function ChainLength(runs: seq<Run>): (n: nat)
    ensures n <= |runs|
    ensures runs != [] ==> n >= 1
  {
    if runs == [] then 0
    else if Abandons(runs[0]) then 1
    else 1 + ChainLength(runs[1..])
  }

  lemma {:induction false} ConcatCons(runs: seq<Run>)
    requires runs != []
    ensures Concat(runs) == runs[0].step.trace + Concat(runs[1..])
    decreases |runs|
  {
    var init, last := runs[..|runs| - 1], runs[|runs| - 1];
    if |runs| == 1 {
      assert init == [] && runs[1..] == [];
    } else {
      ConcatCons(init);
      var tail := runs[1..];
      assert tail[..|tail| - 1] == init[1..];
      assert tail[|tail| - 1] == last;
      assert init[0] == runs[0];
      calc {
        Concat(runs);
        Concat(init) + last.step.trace;
        (runs[0].step.trace + Concat(init[1..])) + last.step.trace;
        runs[0].step.trace + (Concat(tail[..|tail| - 1]) + tail[|tail| - 1].step.trace);
        runs[0].step.trace + Concat(tail);
      }
    }
  }

  /** One turn of the loop: from a trace that, followed by the rest of the
      loop from run `i`, gives the whole loop, run `i` either ends the loop
      or leaves the same situation at `i + 1`. */
  lemma ChainStep(runs: seq<Run>, i: nat, trace: seq<Event>)
    requires i < |runs| && trace + Chain(runs[i..]) == Chain(runs)
    ensures Abandons(runs[i]) ==> trace + runs[i].step.trace == Chain(runs)
    ensures !Abandons(runs[i]) ==> (trace + runs[i].step.trace) + Chain(runs[i + 1..]) == Chain(runs)
  {
    assert runs[i..][0] == runs[i];
    assert runs[i..][1..] == runs[i + 1..];
    if Abandons(runs[i]) {
      assert Chain(runs[i..]) == runs[i].step.trace + [];
    }
  }

  lemma ChainEnds(runs: seq<Run>, trace: seq<Event>)
    ensures [] + Chain(runs[0..]) == Chain(runs)
    ensures trace + Chain(runs[|runs|..]) == Chain(runs) ==> trace == Chain(runs)
  {
    assert runs[0..] == runs;
    assert runs[|runs|..] == [];
    assert trace + [] == trace;
  }

  /** The loop runs exactly a prefix of the list, each run as on its own,
      ending at the first run that abandons. */
  lemma {:induction false} ChainStopsAtFirstAbandon(runs: seq<Run>)
    ensures var n := ChainLength(runs);
            && Chain(runs) == Concat(runs[..n])
            && (forall i :: 0 <= i < n - 1 ==> !Abandons(runs[i]))
            && (n < |runs| ==> Abandons(runs[n - 1]))
  {
    if runs != [] {
      var rest := runs[1..];
      ChainStopsAtFirstAbandon(rest);
      var n := ChainLength(runs);
      if Abandons(runs[0]) {
        assert runs[..1] == [runs[0]];
        ConcatCons(runs[..1]);
        assert runs[..1][1..] == [];
      } else {
        var m := ChainLength(rest);
        assert runs[..n][1..] == rest[..m];
        ConcatCons(runs[..n]);
        assert runs[..n][0] == runs[0];
        forall i | 0 <= i < |rest| ensures rest[i] == runs[i + 1] { }
      }
    }
  }

  /** The abandonment rule of `execute_actions`: the actions run are exactly
      a prefix of the list, each run as on its own, ending at the first
      action that raised while `required`; an action that merely reports
      `success = False`, or raises without being required, never stops the
      list. */
  lemma RunActionsAbandonsOnlyOnRequiredRaise(os: Os, hwnd: int, actions: seq<Action>, position: Option<Box>)
    ensures var runs := Runs(os, hwnd, actions, position);
            var n := ChainLength(runs);
            && RunActions(os, hwnd, actions, position) == Concat(runs[..n])
            && (forall i :: 0 <= i < n - 1 ==>
                  !(ActionRun(os, hwnd, actions[i], position).outcome.Threw? && actions[i].required.GetOr(false)))
            && (n < |actions| ==>
                  ActionRun(os, hwnd, actions[n - 1], position).outcome.Threw? && actions[n - 1].required.GetOr(false))
  {
    var runs := Runs(os, hwnd, actions, position);
    var n := ChainLength(runs);
    ChainStopsAtFirstAbandon(runs);
    forall i | 0 <= i < n - 1
      ensures !(ActionRun(os, hwnd, actions[i], position).outcome.Threw? && actions[i].required.GetOr(false))
    {
      RunsAt(os, hwnd, actions, position, i);
      assert !Abandons(runs[i]);
    }
    if n < |actions| {
      RunsAt(os, hwnd, actions, position, n - 1);
      assert Abandons(runs[n - 1]);
    }
  }

  /** The calls that act on the desktop, as opposed to lookups, captures
      and recognitions. */
  predicate Drives(e: Event)
  {
    !(e.FindExact? || e.EnumTitles? || e.CaptureWindow? || e.Recognise?)
  }

  predicate AllDrive(trace: seq<Event>)
  {
    forall e :: e in trace ==> Drives(e)
  }

  lemma {:induction false} ChainDrives(runs: seq<Run>)
    requires forall i :: 0 <= i < |runs| ==> AllDrive(runs[i].step.trace)
    ensures AllDrive(Chain(runs))
  {
    if runs != [] {
      ChainDrives(runs[1..]);
    }
  }

  lemma ActionRunDrives(os: Os, hwnd: int, a: Action, position: Option<Box>)
    ensures AllDrive(ActionRun(os, hwnd, a, position).trace)
  {
    if IsWindow(os, hwnd) {
      var plan := ActionCalls(RectOf(os, hwnd), hwnd, a, position);
      assert AllDrive(plan.1);
      assert forall e :: e in Issue(os, plan.1).1 ==> e in plan.1;
    }
  }

  /** Actions only drive the desktop: they never look a window up, capture
      it or run a recognition. */
  lemma RunActionsDrive(os: Os, hwnd: int, actions: seq<Action>, position: Option<Box>)
    ensures AllDrive(RunActions(os, hwnd, actions, position))
  {
    var runs := Runs(os, hwnd, actions, position);
    forall i | 0 <= i < |runs| ensures AllDrive(runs[i].step.trace)
    {
      RunsAt(os, hwnd, actions, position, i);
      ActionRunDrives(os, hwnd, actions[i], position);
    }
    ChainDrives(runs);
  }

  // ---------------------------------------------------------------------
  // _process_found_template and check_rules
  // ---------------------------------------------------------------------

  /** The keyword arguments of the extra click on the image. */
  function CentreClick(b: Box): Params
  {
    var c := Centre(b);
    Params(Some(c.0), Some(c.1), Some("left"), Some(true), None, None, None, None, None, None, None)
  }

  /** `_process_found_template`: bring a live window to the front, click the
      centre of the match when the rule asks for it, then run the actions
      with the matched box as position. `target` is the executor's handle. */
  function ProcessFound(os: Os, hwnd: int, target: int, rule: Rule, b: Box): (trace: seq<Event>)
  {
    (if hwnd != 0 && IsWindow(os, hwnd) then [BringToFront(hwnd), Sleep(0.3)] else []) +
    (if rule.clickOnImage.GetOr(false) then ExecuteAction(target, os, "click", CentreClick(b)).trace + [Sleep(0.2)] else []) +
    RunActions(os, hwnd, rule.actions, Some(b))
  }

  /** With `click_on_image`, a left click at the centre of the match is
      sent to the executor's window before any action of the rule runs. */
  lemma ProcessFoundClicksCentre(os: Os, hwnd: int, target: int, rule: Rule, b: Box)
    requires rule.clickOnImage == Some(true) && target != 0
    ensures var c := Centre(b);
            var t := ProcessFound(os, hwnd, target, rule, b);
            exists i :: 0 <= i < |t| && t[i] == MouseMessage(target, c.0, c.1, "left")
                        && t[i + 1..] == [Sleep(0.2)] + RunActions(os, hwnd, rule.actions, Some(b))
  {
    var c := Centre(b);
    var front: seq<Event> := if hwnd != 0 && IsWindow(os, hwnd) then [BringToFront(hwnd), Sleep(0.3)] else [];
    var click := ExecuteAction(target, os, "click", CentreClick(b)).trace;
    var rest := [Sleep(0.2)] + RunActions(os, hwnd, rule.actions, Some(b));
    CentreClickEndsWithMessage(target, os, b);
    var t := ProcessFound(os, hwnd, target, rule, b);
    ProcessFoundClickShape(os, hwnd, target, rule, b);
    LastOfMiddle(front, click, rest);
    var i := |front| + |click| - 1;
    assert 0 <= i < |t| && t[i] == MouseMessage(target, c.0, c.1, "left") && t[i + 1..] == rest;
  }

  lemma ProcessFoundClickShape(os: Os, hwnd: int, target: int, rule: Rule, b: Box)
    requires rule.clickOnImage == Some(true)
    ensures ProcessFound(os, hwnd, target, rule, b) ==
            (if hwnd != 0 && IsWindow(os, hwnd) then [BringToFront(hwnd), Sleep(0.3)] else []) +
            ExecuteAction(target, os, "click", CentreClick(b)).trace +
            ([Sleep(0.2)] + RunActions(os, hwnd, rule.actions, Some(b)))
  {
    assert rule.clickOnImage.GetOr(false);
  }

  lemma CentreClickEndsWithMessage(target: int, os: Os, b: Box)
    requires target != 0
    ensures var click := ExecuteAction(target, os, "click", CentreClick(b)).trace;
            click != [] && click[|click| - 1] == MouseMessage(target, Centre(b).0, Centre(b).1, "left")
  {
    assert ExecuteAction(target, os, "click", CentreClick(b)) == Click(target, os, Centre(b).0, Centre(b).1, "left", true);
  }

  lemma LastOfMiddle(front: seq<Event>, click: seq<Event>, rest: seq<Event>)
    requires click != []
    ensures var t, i := front + click + rest, |front| + |click| - 1;
            0 <= i < |t| && t[i] == click[|click| - 1] && t[i + 1..] == rest
  {
    var t, i := front + click + rest, |front| + |click| - 1;
    assert t[i + 1..] == rest;
  }

  /** A rule takes part only with a non-empty template name and actions. */
  predicate Eligible(rule: Rule)
  {
    rule.template.Some? && rule.template.value != "" && rule.actions != []
  }

  /** `match_method == 'histogram'` selects histogram matching. */
  predicate UsesHistogram(rule: Rule)
  {
    rule.matchMethod == Some("histogram")
  }

  /** The recognition a rule runs on the capture, at its threshold (0.8 by
      default); template matching uses `TM_CCOEFF_NORMED`. */
  function RuleMatch(ts: Templates, k: Kernels, capture: Image, rule: Rule): (m: Match)
    requires Eligible(rule)
  {
    var threshold := rule.threshold.GetOr(0.8);
    if UsesHistogram(rule) then HistogramMatch(ts, Some(capture), rule.template.value, threshold, k)
    else TemplateMatch(ts, Some(capture), rule.template.value, threshold, CCoeffNormed, k)
  }

  /** A rule reports a match only at or above its own threshold, 0.8 when
      it gives none, whichever strategy it names. */
  lemma RuleMatchMeetsThreshold(ts: Templates, k: Kernels, capture: Image, rule: Rule)
    requires Eligible(rule)
    ensures var m := RuleMatch(ts, k, capture, rule);
            && (m.found ==> m.confidence >= rule.threshold.GetOr(0.8))
            && (m.found && rule.threshold.None? ==> m.confidence >= 0.8)
  {
    var name, threshold := rule.template.value, rule.threshold.GetOr(0.8);
    if name in ts && ts[name].Some? {
      if UsesHistogram(rule) {
        HistogramMatchProperties(ts, Some(capture), name, threshold, k);
      } else {
        TemplateMatchSelectsBest(ts, Some(capture), name, threshold, CCoeffNormed, k);
      }
    }
  }

  /** One iteration of the `check_rules` loop. */
  function RuleTrace(os: Os, ts: Templates, k: Kernels, hwnd: int, target: int, capture: Image, rule: Rule): (trace: seq<Event>)
    ensures !Eligible(rule) ==> trace == []
    ensures Eligible(rule) ==> trace != [] && trace[0] == Recognise(rule.template.value, UsesHistogram(rule))
  {
    if !Eligible(rule) then []
    else
      var m := RuleMatch(ts, k, capture, rule);
      [Recognise(rule.template.value, UsesHistogram(rule))] +
      (if m.found then ProcessFound(os, hwnd, target, rule, m.box) else [])
  }

  /** `check_rules(screenshot)`: every rule, in order. */
  function RulesTrace(os: Os, ts: Templates, k: Kernels, hwnd: int, target: int, capture: Image, rules: seq<Rule>): (trace: seq<Event>)
  {
    if rules == [] then []
    else RulesTrace(os, ts, k, hwnd, target, capture, rules[..|rules| - 1]) +
         RuleTrace(os, ts, k, hwnd, target, capture, rules[|rules| - 1])
  }

  lemma RulesTraceSnoc(os: Os, ts: Templates, k: Kernels, hwnd: int, target: int, capture: Image, rules: seq<Rule>, i: nat)
    requires i < |rules|
    ensures RulesTrace(os, ts, k, hwnd, target, capture, rules[..i + 1]) ==
            RulesTrace(os, ts, k, hwnd, target, capture, rules[..i]) + RuleTrace(os, ts, k, hwnd, target, capture, rules[i])
    ensures !Eligible(rules[i]) ==> RuleTrace(os, ts, k, hwnd, target, capture, rules[i]) == []
  {
    assert rules[..i + 1][..i] == rules[..i];
  }

  /** The calls of one eligible rule, given the outcome of its recognition. */
  lemma RuleTraceOf(os: Os, ts: Templates, k: Kernels, hwnd: int, target: int, capture: Image, rule: Rule,
                    m: Match, step: seq<Event>)
    requires Eligible(rule) && m == RuleMatch(ts, k, capture, rule)
    requires step == [Recognise(rule.template.value, UsesHistogram(rule))] +
                     (if m.found then ProcessFound(os, hwnd, target, rule, m.box) else [])
    ensures RuleTrace(os, ts, k, hwnd, target, capture, rule) == step
  {
  }

  /** The recognitions in a trace: template name and strategy, in order. */
  function Recognitions(trace: seq<Event>): seq<(string, bool)>
  {
    if trace == [] then []
    else Recognitions(trace[..|trace| - 1]) +
         (if trace[|trace| - 1].Recognise? then [(trace[|trace| - 1].template, trace[|trace| - 1].histogram)] else [])
  }

  /** The recognitions `check_rules` must run: one per eligible rule. */
  function EligibleRecognitions(rules: seq<Rule>): seq<(string, bool)>
  {
    if rules == [] then []
    else EligibleRecognitions(rules[..|rules| - 1]) +
         (var r := rules[|rules| - 1]; if Eligible(r) then [(r.template.value, UsesHistogram(r))] else [])
  }

  lemma {:induction false} RecognitionsAppend(a: seq<Event>, b: seq<Event>)
    ensures Recognitions(a + b) == Recognitions(a) + Recognitions(b)
    decreases |b|
  {
    if b == [] {
      assert a + b == a;
    } else {
      RecognitionsAppend(a, b[..|b| - 1]);
      var ab := a + b;
      assert ab[..|ab| - 1] == a + b[..|b| - 1];
      assert ab[|ab| - 1] == b[|b| - 1];
    }
  }

  lemma {:induction false} NoRecognitionIn(trace: seq<Event>)
    requires forall e :: e in trace ==> !e.Recognise?
    ensures Recognitions(trace) == []
  {
    if trace != [] {
      assert forall e :: e in trace[..|trace| - 1] ==> e in trace;
      NoRecognitionIn(trace[..|trace| - 1]);
      assert trace[|trace| - 1] in trace;
    }
  }

  /** Handling a match only drives the desktop. */
  lemma ProcessFoundDrives(os: Os, hwnd: int, target: int, rule: Rule, b: Box)
    ensures AllDrive(ProcessFound(os, hwnd, target, rule, b))
  {
    RunActionsDrive(os, hwnd, rule.actions, Some(b));
    var click := ExecuteAction(target, os, "click", CentreClick(b));
    assert target != 0 ==> click == Click(target, os, Centre(b).0, Centre(b).1, "left", true);
    assert AllDrive(click.trace);
  }

  lemma ProcessFoundRecognisesNothing(os: Os, hwnd: int, target: int, rule: Rule, b: Box)
    ensures Recognitions(ProcessFound(os, hwnd, target, rule, b)) == []
  {
    ProcessFoundDrives(os, hwnd, target, rule, b);
    NoRecognitionIn(ProcessFound(os, hwnd, target, rule, b));
  }

  /** One rule runs one recognition, with its strategy, when it is eligible
      and none otherwise; the actions a match triggers recognise nothing. */
  lemma RuleRecognisesOnce(os: Os, ts: Templates, k: Kernels, hwnd: int, target: int, capture: Image, r: Rule)
    ensures Recognitions(RuleTrace(os, ts, k, hwnd, target, capture, r)) ==
            if Eligible(r) then [(r.template.value, UsesHistogram(r))] else []
  {
    if Eligible(r) {
      var m := RuleMatch(ts, k, capture, r);
      var rest := if m.found then ProcessFound(os, hwnd, target, r, m.box) else [];
      if m.found { ProcessFoundRecognisesNothing(os, hwnd, target, r, m.box); }
      RecognitionsAppend([Recognise(r.template.value, UsesHistogram(r))], rest);
      assert Recognitions([Recognise(r.template.value, UsesHistogram(r))]) ==
             Recognitions([]) + [(r.template.value, UsesHistogram(r))];
    }
  }

  /** `check_rules` runs exactly one recognition per eligible rule, in list
      order and with the rule's strategy; matches found on the way, and the
      actions they trigger, never cut the loop short. */
  lemma {:induction false} RulesRecogniseEligible(os: Os, ts: Templates, k: Kernels, hwnd: int, target: int,
                                                 capture: Image, rules: seq<Rule>)
    ensures Recognitions(RulesTrace(os, ts, k, hwnd, target, capture, rules)) == EligibleRecognitions(rules)
  {
    if rules != [] {
      var init, r := rules[..|rules| - 1], rules[|rules| - 1];
      RulesRecogniseEligible(os, ts, k, hwnd, target, capture, init);
      RecognitionsAppend(RulesTrace(os, ts, k, hwnd, target, capture, init), RuleTrace(os, ts, k, hwnd, target, capture, r));
      RuleRecognisesOnce(os, ts, k, hwnd, target, capture, r);
    }
  }

  // ---------------------------------------------------------------------
  // find_window and one cycle of run
  // ---------------------------------------------------------------------

  /** The outcome of `find_window`: success, the resulting handle, and the
      lookups made. */
  datatype Located = Located(ok: bool, hwnd: int, trace: seq<Event>)

  /** `find_window()`: with a title, the exact lookup first and, when it
      finds nothing, the first partial-title match; without a title the
      handle is left as it was. Success means a live, non-zero handle. */
  function Locate(os: Os, title: string, windowClass: Option<string>, hwnd: int): (r: Located)
    ensures r.ok <==> r.hwnd != 0 && IsWindow(os, r.hwnd)
    ensures title == "" ==> r.hwnd == hwnd && r.trace == []
    ensures title != "" && FindExactHandle(os.windows, title, windowClass) != 0 ==>
              r.hwnd == FindExactHandle(os.windows, title, windowClass) && r.trace == [FindExact(title, windowClass)]
    ensures title != "" && FindExactHandle(os.windows, title, windowClass) == 0 ==>
              var ms := TitleMatches(os.windows, title);
              r.hwnd == (if ms != [] then ms[0] else 0) && r.trace == [FindExact(title, windowClass), EnumTitles(title)]
  {
    var found :=
      if title == "" then (hwnd, [])
      else
        var exact := FindExactHandle(os.windows, title, windowClass);
        if exact != 0 then (exact, [FindExact(title, windowClass)])
        else
          var ms := TitleMatches(os.windows, title);
          (if ms != [] then ms[0] else 0, [FindExact(title, windowClass), EnumTitles(title)]);
    Located(found.0 != 0 && IsWindow(os, found.0), found.0, found.1)
  }

  /** The state one cycle leaves behind and the calls it made: the monitor's
      handle, the executor's target, and the trace. */
  datatype CycleResult = CycleResult(hwnd: int, target: int, trace: seq<Event>)

  /** The second half of a cycle on a live window `h`: capture it, check the
      rules when the capture worked, and wait one interval. */
  function Observe(s: Settings, h: int, target: int, ts: Templates, k: Kernels, os: Os): (trace: seq<Event>)
    ensures |trace| >= 2 && trace[0] == CaptureWindow(h) && trace[|trace| - 1] == Sleep(s.interval)
  {
    var capture := CaptureOf(os, h);
    [CaptureWindow(h)] +
    (if capture.Some? then RulesTrace(os, ts, k, h, target, capture.value, s.rules) else []) +
    [Sleep(s.interval)]
  }

  /** One iteration of the `run` loop while `running`: idle when paused;
      otherwise re-locate a dead window (waiting an interval when that
      fails) and observe the window. */
  function Cycle(s: Settings, paused: bool, hwnd: int, target: int, ts: Templates, k: Kernels, os: Os): (r: CycleResult)
  {
    if paused then CycleResult(hwnd, target, [Sleep(0.5)])
    else if hwnd != 0 && IsWindow(os, hwnd) then CycleResult(hwnd, target, Observe(s, hwnd, target, ts, k, os))
    else
      var f := Locate(os, s.title, s.windowClass, hwnd);
      if !f.ok then CycleResult(f.hwnd, target, f.trace + [Sleep(s.interval)])
      else CycleResult(f.hwnd, f.hwnd, f.trace + Observe(s, f.hwnd, f.hwnd, ts, k, os))
  }

  predicate IsLookup(e: Event) { e.FindExact? || e.EnumTitles? }

  /** A paused monitor neither looks a window up nor captures it, and keeps
      its handle and the executor's target. */
  lemma CyclePausedIdles(s: Settings, hwnd: int, target: int, ts: Templates, k: Kernels, os: Os)
    ensures var r := Cycle(s, true, hwnd, target, ts, k, os);
            && r.hwnd == hwnd && r.target == target
            && forall e :: e in r.trace ==> !IsLookup(e) && !e.CaptureWindow? && !e.Recognise?
  {
  }

  /** When the window is gone and cannot be found again, nothing is captured
      or recognised and the executor keeps its target. */
  lemma CycleLostWindowSkipsCapture(s: Settings, hwnd: int, target: int, ts: Templates, k: Kernels, os: Os)
    requires hwnd == 0 || !IsWindow(os, hwnd)
    requires !Locate(os, s.title, s.windowClass, hwnd).ok
    ensures var r := Cycle(s, false, hwnd, target, ts, k, os);
            && r.target == target && !(r.hwnd != 0 && IsWindow(os, r.hwnd))
            && forall e :: e in r.trace ==> !e.CaptureWindow? && !e.Recognise?
  {
  }

  lemma LocateRecognisesNothing(os: Os, title: string, windowClass: Option<string>, hwnd: int)
    ensures Recognitions(Locate(os, title, windowClass, hwnd).trace) == []
  {
    NoRecognitionIn(Locate(os, title, windowClass, hwnd).trace);
  }

  /** Observing runs one recognition per eligible rule when the capture
      worked, and none otherwise. */
  lemma ObserveRecognitions(s: Settings, h: int, target: int, ts: Templates, k: Kernels, os: Os)
    ensures Recognitions(Observe(s, h, target, ts, k, os)) ==
            if CaptureOf(os, h).Some? then EligibleRecognitions(s.rules) else []
  {
    var capture := CaptureOf(os, h);
    var checked := if capture.Some? then RulesTrace(os, ts, k, h, target, capture.value, s.rules) else [];
    NoRecognitionIn([CaptureWindow(h)]);
    NoRecognitionIn([Sleep(s.interval)]);
    RecognitionsAppend([CaptureWindow(h)], checked);
    RecognitionsAppend([CaptureWindow(h)] + checked, [Sleep(s.interval)]);
    if capture.Some? {
      RulesRecogniseEligible(os, ts, k, h, target, capture.value, s.rules);
    }
  }

  /** A cycle that reaches a live window recognises exactly the eligible
      rules, in order, when its capture works, and nothing when it fails;
      a live window is kept without any lookup and the executor keeps its
      target, while a re-located window becomes the executor's target. */
  lemma CycleRecognitions(s: Settings, hwnd: int, target: int, ts: Templates, k: Kernels, os: Os)
    ensures var r := Cycle(s, false, hwnd, target, ts, k, os);
            r.hwnd != 0 && IsWindow(os, r.hwnd) ==>
              Recognitions(r.trace) == (if CaptureOf(os, r.hwnd).Some? then EligibleRecognitions(s.rules) else [])
    ensures hwnd != 0 && IsWindow(os, hwnd) ==>
              var r := Cycle(s, false, hwnd, target, ts, k, os);
              r.hwnd == hwnd && r.target == target && forall e :: e in r.trace ==> !IsLookup(e)
    ensures !(hwnd != 0 && IsWindow(os, hwnd)) && Locate(os, s.title, s.windowClass, hwnd).ok ==>
              Cycle(s, false, hwnd, target, ts, k, os).target == Locate(os, s.title, s.windowClass, hwnd).hwnd
  {
    if hwnd != 0 && IsWindow(os, hwnd) {
      CycleOnLiveWindow(s, hwnd, target, ts, k, os);
    } else if Locate(os, s.title, s.windowClass, hwnd).ok {
      CycleOnRelocatedWindow(s, hwnd, target, ts, k, os);
    }
  }

  lemma CycleOnLiveWindow(s: Settings, hwnd: int, target: int, ts: Templates, k: Kernels, os: Os)
    requires hwnd != 0 && IsWindow(os, hwnd)
    ensures var r := Cycle(s, false, hwnd, target, ts, k, os);
            && r.hwnd == hwnd && r.target == target && (forall e :: e in r.trace ==> !IsLookup(e))
            && Recognitions(r.trace) == (if CaptureOf(os, hwnd).Some? then EligibleRecognitions(s.rules) else [])
  {
    ObserveRecognitions(s, hwnd, target, ts, k, os);
    var capture := CaptureOf(os, hwnd);
    if capture.Some? {
      RulesNoLookup(os, ts, k, hwnd, target, capture.value, s.rules);
    }
  }

  lemma CycleOnRelocatedWindow(s: Settings, hwnd: int, target: int, ts: Templates, k: Kernels, os: Os)
    requires !(hwnd != 0 && IsWindow(os, hwnd)) && Locate(os, s.title, s.windowClass, hwnd).ok
    ensures var r, f := Cycle(s, false, hwnd, target, ts, k, os), Locate(os, s.title, s.windowClass, hwnd);
            && r.hwnd == f.hwnd && r.target == f.hwnd
            && Recognitions(r.trace) == (if CaptureOf(os, f.hwnd).Some? then EligibleRecognitions(s.rules) else [])
  {
    var f := Locate(os, s.title, s.windowClass, hwnd);
    LocateRecognisesNothing(os, s.title, s.windowClass, hwnd);
    ObserveRecognitions(s, f.hwnd, f.hwnd, ts, k, os);
    RecognitionsAppend(f.trace, Observe(s, f.hwnd, f.hwnd, ts, k, os));
  }

  lemma {:induction false} RulesNoLookup(os: Os, ts: Templates, k: Kernels, hwnd: int, target: int, capture: Image, rules: seq<Rule>)
    ensures forall e :: e in RulesTrace(os, ts, k, hwnd, target, capture, rules) ==> !IsLookup(e)
  {
    if rules != [] {
      var init := rules[..|rules| - 1];
      var last := RuleTrace(os, ts, k, hwnd, target, capture, rules[|rules| - 1]);
      RulesNoLookup(os, ts, k, hwnd, target, capture, init);
      RuleNoLookup(os, ts, k, hwnd, target, capture, rules[|rules| - 1]);
      assert RulesTrace(os, ts, k, hwnd, target, capture, rules) == RulesTrace(os, ts, k, hwnd, target, capture, init) + last;
    }
  }

  lemma RuleNoLookup(os: Os, ts: Templates, k: Kernels, hwnd: int, target: int, capture: Image, rule: Rule)
    ensures forall e :: e in RuleTrace(os, ts, k, hwnd, target, capture, rule) ==> !IsLookup(e)
  {
    if Eligible(rule) {
      var m := RuleMatch(ts, k, capture, rule);
      ProcessFoundDrives(os, hwnd, target, rule, m.box);
    }
  }

  // ---------------------------------------------------------------------
  // The monitor object
  // ---------------------------------------------------------------------

  /** `ProgramMonitor`: the thread's flags and handle, its settings, and the
      recognition engine and executor it owns. */
  class ProgramMonitor {
    const programName: string
    const settings: Settings
    var running: bool
    var paused: bool
    var hwnd: int
    var liveness: Liveness
    const recognizer: ImageRecognition
    const executor: ActionExecutor

    /** `ProgramMonitor(config, resources_dir)`; `listing` is the content of
        the resources' `images` directory (empty when there is none). */
    constructor (config: Config, listing: seq<DirEntry>)
      ensures programName == config.name.GetOr("Unknown Program")
      ensures settings == SettingsOf(config)
      ensures !running && !paused && hwnd == 0 && liveness == NotStarted
      ensures fresh(recognizer) && fresh(executor)
      ensures recognizer.templates == Load(map[], listing) && executor.hwnd == 0
    {
      programName := config.name.GetOr("Unknown Program");
      settings := SettingsOf(config);
      running, paused, hwnd, liveness := false, false, 0, NotStarted;
      recognizer := new ImageRecognition(listing);
      executor := new ActionExecutor(0);
    }

    /** `find_window()`. */
    method FindWindow(os: Os) returns (ok: bool, trace: seq<Event>)
      modifies this, executor
      ensures var r := Locate(os, settings.title, settings.windowClass, old(hwnd));
              ok == r.ok && hwnd == r.hwnd && trace == r.trace
      ensures executor.hwnd == if ok then hwnd else old(executor.hwnd)
      ensures running == old(running) && paused == old(paused) && liveness == old(liveness)
    {
      trace := [];
      if settings.title != "" {
        hwnd := FindExactHandle(os.windows, settings.title, settings.windowClass);
        trace := [FindExact(settings.title, settings.windowClass)];
        if hwnd == 0 {
          var windows := TitleMatches(os.windows, settings.title);
          trace := trace + [EnumTitles(settings.title)];
          if windows != [] {
            hwnd := windows[0];
          }
        }
      }
      if hwnd != 0 && IsWindow(os, hwnd) {
        executor.SetTargetWindow(hwnd);
        return true, trace;
      }
      return false, trace;
    }

    /** `execute_actions(actions, position)`: each action in its own `try`;
        the loop breaks only after an exception from a `required` action. */
    method ExecuteActions(os: Os, actions: seq<Action>, position: Option<Box>) returns (trace: seq<Event>)
      ensures trace == RunActions(os, hwnd, actions, position)
    {
      ghost var runs := Runs(os, hwnd, actions, position);
      ChainEnds(runs, []);
      trace := [];
      var i := 0;
      while i < |actions|
        invariant 0 <= i <= |actions|
        invariant trace + Chain(runs[i..]) == Chain(runs)
      {
        var action := actions[i];
        var step := ActionRun(os, hwnd, action, position);
        RunsAt(os, hwnd, actions, position, i);
        ChainStep(runs, i, trace);
        trace := trace + step.trace;
        if step.outcome.Threw? && action.required.GetOr(false) {
          return;
        }
        i := i + 1;
      }
      ChainEnds(runs, trace);
    }

    /** `_process_found_template(name, position, actions, rule)`. */
    method ProcessFoundTemplate(os: Os, b: Box, rule: Rule) returns (trace: seq<Event>)
      ensures trace == ProcessFound(os, hwnd, executor.hwnd, rule, b)
    {
      trace := [];
      if hwnd != 0 && IsWindow(os, hwnd) {
        trace := [BringToFront(hwnd), Sleep(0.3)];
      }
      if rule.clickOnImage.GetOr(false) {
        var click := ExecuteAction(executor.hwnd, os, "click", CentreClick(b));
        trace := trace + click.trace + [Sleep(0.2)];
      }
      var acted := ExecuteActions(os, rule.actions, Some(b));
      trace := trace + acted;
    }

    /** `check_rules(screenshot)`. */
    method CheckRules(os: Os, k: Kernels, capture: Image) returns (trace: seq<Event>)
      ensures trace == RulesTrace(os, recognizer.templates, k, hwnd, executor.hwnd, capture, settings.rules)
    {
      var rules := settings.rules;
      trace := [];
      for i := 0 to |rules|
        invariant trace == RulesTrace(os, recognizer.templates, k, hwnd, executor.hwnd, capture, rules[..i])
      {
        RulesTraceSnoc(os, recognizer.templates, k, hwnd, executor.hwnd, capture, rules, i);
        var rule := rules[i];
        if rule.template.Some? && rule.template.value != "" && rule.actions != [] {
          var name := rule.template.value;
          var threshold := rule.threshold.GetOr(0.8);
          var m: Match;
          if rule.matchMethod == Some("histogram") {
            m := recognizer.FindByHistogram(Some(capture), name, threshold, k);
          } else {
            m := recognizer.FindTemplate(Some(capture), name, threshold, CCoeffNormed, k);
          }
          var step := [Recognise(name, UsesHistogram(rule))];
          if m.found {
            var acted := ProcessFoundTemplate(os, m.box, rule);
            step := step + acted;
          }
          RuleTraceOf(os, recognizer.templates, k, hwnd, executor.hwnd, capture, rule, m, step);
          trace := trace + step;
        }
      }
      assert rules[..|rules|] == rules;
    }

    /** One step of the thread: the `while self.running` test, then one
        iteration of the loop body. A stopped monitor's thread ends. */
    method Step(os: Os, k: Kernels) returns (trace: seq<Event>)
      requires liveness == Alive
      modifies this, executor
      ensures !old(running) ==> liveness == Finished && trace == [] && hwnd == old(hwnd) &&
                                executor.hwnd == old(executor.hwnd)
      ensures old(running) ==>
                var r := Cycle(settings, paused, old(hwnd), old(executor.hwnd), recognizer.templates, k, os);
                liveness == Alive && hwnd == r.hwnd && executor.hwnd == r.target && trace == r.trace
      ensures running == old(running) && paused == old(paused)
    {
      if !running {
        liveness := Finished;
        return [];
      }
      if paused {
        return [Sleep(0.5)];
      }
      if hwnd != 0 && IsWindow(os, hwnd) {
        trace := ObserveWindow(os, k);
        return;
      }
      var ok, lookups := FindWindow(os);
      if !ok {
        return lookups + [Sleep(settings.interval)];
      }
      var seen := ObserveWindow(os, k);
      trace := lookups + seen;
    }

    /** The second half of a cycle on the current, live window: capture it,
        check the rules when the capture worked, and wait one interval. */
    method ObserveWindow(os: Os, k: Kernels) returns (trace: seq<Event>)
      ensures trace == Observe(settings, hwnd, executor.hwnd, recognizer.templates, k, os)
    {
      var screenshot := CaptureOf(os, hwnd);
      var checked := [];
      if screenshot.Some? {
        checked := CheckRules(os, k, screenshot.value);
      }
      trace := [CaptureWindow(hwnd)] + checked + [Sleep(settings.interval)];
    }

    /** `start()` of the thread: only a thread never started can start, and
        its `run` sets `running`. */
    method Start() returns (started: bool)
      modifies this
      ensures started <==> old(liveness) == NotStarted
      ensures started ==> liveness == Alive && running
      ensures !started ==> liveness == old(liveness) && running == old(running)
      ensures paused == old(paused) && hwnd == old(hwnd)
    {
      if liveness != NotStarted {
        return false;
      }
      liveness := Alive;
      running := true;
      return true;
    }

    /** `pause()`. */
    method Pause()
      modifies this
      ensures paused && running == old(running) && hwnd == old(hwnd) && liveness == old(liveness)
    {
      paused := true;
    }

    /** `resume()`. */
    method Resume()
      modifies this
      ensures !paused && running == old(running) && hwnd == old(hwnd) && liveness == old(liveness)
    {
      paused := false;
    }

    /** `stop()`: the thread sees it at its next loop test. */
    method Stop()
      modifies this
      ensures !running && paused == old(paused) && hwnd == old(hwnd) && liveness == old(liveness)
    {
      running := false;
    }
  }
}
