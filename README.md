# Recognise-then-act automation engine, modelled in Dafny

The repository automates Windows programs. It captures a target window, looks
for template images in the capture (OpenCV template matching or colour
histograms), and when one is found it drives the window: clicks, key presses,
text, waits. Five Python files make up the engine:

- `core/image_recognition.py`: the name-to-template store and three ways of
  finding a template in a capture.
- `core/action_executor.py`: window-message actions aimed at one handle.
- `monitoring/program_monitor.py`: a thread per program that finds its
  window, captures it, checks the program's rules and runs their actions
  through direct input.
- `monitoring/auto_click_monitor.py`: a thread that clicks the centre of one
  template whenever it appears, through a driver → win32 → direct-input
  fallback chain.
- `monitoring/monitor_manager.py`: the fleet of program monitors, created
  from configurations and started, stopped, paused and resumed together.

The model keeps the engine's decisions and treats the world as data:

- The desktop is an `Os` value (`desktop.dfy`): a window table, the cursor,
  and a predicate saying which external call raises or answers False.
- OpenCV is a `Kernels` value (`vision.dfy`): a correlation function that
  yields a score map (or raises) and a histogram-correlation function.
  Confidences are `real`s that are only compared.
- Every external call the engine makes is an `Event`. The effect of an
  operation is the sequence of events it issues, pauses (`Sleep`) included.
  Where an operation lives on an object whose fields the source updates, it
  is a class method proved equal to a specification function over these
  values.

Modules: `Basics` (Python `get`, `lower`/`upper`, `int()`, decimal
strings), `Vision`, `Desktop`, `Recognition` (`image_recognition.py`),
`Executor` (`action_executor.py`), `ProgramMonitoring`
(`program_monitor.py`), `AutoClick` (`auto_click_monitor.py`) and `Fleet`
(`monitor_manager.py`).

Two points where the code is followed rather than its design description:

- `create_monitors` does not reject a duplicate name. A name is skipped only
  while its monitor's thread is alive. Otherwise the entry is replaced and
  counted, so two configurations with one name both count and the second one
  stays (`Fleet.CreatedCountsDuplicates`).
- In `find_template` and `find_all_templates`, a colour/grayscale mismatch
  between capture and template makes OpenCV raise, outside any handler (see
  Findings). The rest of the model uses the evidently intended conversion.

## Model

| member | source | states |
|---|---|---|
| Basics.LowerString | core/image_recognition.py:36 | ASCII `lower()` keeps the length and lowers each letter, leaving other characters |
| Basics.Trunc | monitoring/program_monitor.py:173-182 | Python `int()` on a float truncates toward zero: within one below (non-negative) or one above (negative) |
| Basics.DigitsRoundTrip | monitoring/program_monitor.py:197 | the decimal digits written for a key code read back as that code |
| Vision.ToGray | core/image_recognition.py:121-122 | BGR→gray conversion succeeds exactly on colour images and keeps the size |
| Vision.Extreme | core/image_recognition.py:101-110 | `minMaxLoc` on a score map: for SQDIFF methods the confidence is `1 - min` at the min location, otherwise the max at the max location; it is attained by a cell and bounds every cell; no result on a raised or empty map |
| Vision.Centre | monitoring/auto_click_monitor.py:137-139 | `(x + w//2, y + h//2)` lies inside a non-empty box |
| Desktop.Lookup | monitoring/program_monitor.py:68 | the window found has the handle asked for; no result means no window has it |
| Desktop.CaptureOf | monitoring/program_monitor.py:91 | capturing an invalid handle yields `None` |
| Desktop.FindExactHandle | monitoring/program_monitor.py:60 | the exact lookup answers 0 exactly when no window has that title and, when a class is given, that class; otherwise the handle of the first such window in enumeration order |
| Desktop.TitleMatches | monitoring/program_monitor.py:64-66 | the partial-title scan lists, in enumeration order, the handle of every visible window whose title contains the pattern, and nothing else |
| Desktop.TitleMatchesFirst | monitoring/program_monitor.py:64-66 | the list is empty iff no visible window's title contains the pattern; otherwise `windows[0]` is the first such window's handle |
| Desktop.Issue | monitoring/program_monitor.py:154-233 | calls inside one `try` are made in order up to and including the first that raises; success iff none raised |
| Recognition.Stem | core/image_recognition.py:38 | `splitext(filename)[0]` is a prefix of the file name |
| Recognition.StemDropsExtension | core/image_recognition.py:38 | the stem of `base + ".ext"` is `base` |
| Recognition.LoadOverrides | core/image_recognition.py:34-45 | loading overwrites existing keys and leaves the others: `Load(m + n) == m + Load(n)` |
| Recognition.LoadIdempotent | core/image_recognition.py:34-45 | loading one directory twice gives the same table as loading it once |
| Recognition.LoadKeys | core/image_recognition.py:34-45 | the keys after loading are the old keys plus the stems of the admitted `.png`/`.jpg`/`.jpeg` files that decoded |
| Recognition.LoadedStemsHas | core/image_recognition.py:34-45 | every admitted file that decoded contributes its stem (the name without extension) to the loaded keys |
| Recognition.LoadedStemsFrom | core/image_recognition.py:34-45 | every loaded stem comes from some admitted file of the listing that decoded |
| Recognition.LoadCountBoundsNewKeys | core/image_recognition.py:34-45 | the returned count (files decoded) is at least the number of new keys |
| Recognition.Load | core/image_recognition.py:34-45 | loading keeps every existing key, and the value of every key no admitted file names |
| Recognition.LoadCount | core/image_recognition.py:34-45 | the decoded-file count is at most the number of directory entries |
| Recognition.ConvertAsWritten | core/image_recognition.py:93-97 | the conversion as written leaves inputs of equal channel count untouched |
| Recognition.ConvertAsWrittenRaisesOnMismatch | core/image_recognition.py:93-97 | on a colour/gray mismatch the conversion as written raises |
| Recognition.Harmonise | core/image_recognition.py:93-97 | the corrected conversion gives both inputs one channel count, keeps sizes, converts only the colour side |
| Recognition.HarmoniseExtendsAsWritten | core/image_recognition.py:93-97 | wherever the code as written succeeds, the corrected conversion gives the same images |
| Recognition.NativeAttempt | core/image_recognition.py:93-114 | definition of the first attempt (`Extreme` of the correlation of the harmonised pair, none when OpenCV raises); used by `TemplateMatchSelectsBest` |
| Recognition.GrayAttempt | core/image_recognition.py:116-138 | the grayscale attempt gives no result unless capture and template are both colour |
| Recognition.Improve | core/image_recognition.py:112-114 | the best is replaced only by a strictly greater confidence, with the template's width and height |
| Recognition.TemplateMatch | core/image_recognition.py:74-81 | unknown name, `None` capture or `None` template gives `(False, (0,0,0,0), 0.0)`; not found always reports the zero box |
| Recognition.TemplateMatchSelectsBest | core/image_recognition.py:84-145 | the confidence is the maximum of 0, the native attempt and the grayscale attempt; found iff it reaches the threshold (inclusive), so a threshold at or below 0 finds with the zero box when no attempt scores above 0; a found box with a positive confidence has the template's size and the position of the attempt that set the best, the earlier one on a tie |
| Recognition.TemplateMatchAboveOneNeverFound | core/image_recognition.py:142-145 | with scores in [0, 1], a threshold above 1 never finds |
| Recognition.Candidates | core/image_recognition.py:183-192 | every candidate reaches the threshold and has the template's size |
| Recognition.SortDesc | core/image_recognition.py:196 | sorting is a permutation |
| Recognition.SortDescSorted | core/image_recognition.py:196 | sorting gives non-increasing confidence |
| Recognition.DuplicateIsDistanceBelowRadius | core/image_recognition.py:214-217 | `_is_duplicate` holds iff the Euclidean distance between top-left corners is below the radius |
| Recognition.DuplicateSymmetric | core/image_recognition.py:214-217 | `_is_duplicate` is symmetric |
| Recognition.IsDuplicate | core/image_recognition.py:202-217 | two matches are duplicates when their corners are closer than the radius, as `DuplicateIsDistanceBelowRadius` proves |
| Recognition.Dedup | core/image_recognition.py:195-198 | greedy deduplication keeps only candidates it was given |
| Recognition.DedupSeparated | core/image_recognition.py:195-198 | no two kept matches are duplicates of each other |
| Recognition.DedupNonIncreasing | core/image_recognition.py:195-198 | deduplication keeps the order of a sorted list |
| Recognition.DedupCovers | core/image_recognition.py:195-198 | every candidate is kept or lies within the radius of a kept match of greater or equal confidence |
| Recognition.FilteredProperties | core/image_recognition.py:195-200 | sort-then-deduplicate is sorted, separated and covers every candidate |
| Recognition.AllMatches | core/image_recognition.py:160-200 | unknown name or `None` inputs give `[]`; every match reaches the threshold and has the template's size |
| Recognition.AllMatchesProperties | core/image_recognition.py:183-200 | `find_all_templates` output is non-increasing, pairwise at least `w//2` apart, and covers every candidate within `w//2` |
| Recognition.HistCandidates | core/image_recognition.py:254 | candidates are exactly the cells scoring at least `0.7 * threshold` |
| Recognition.HistBest | core/image_recognition.py:274-293 | the kept histogram score is never negative, and a zero score keeps the zero box |
| Recognition.HistBestIsMax | core/image_recognition.py:274-293 | the kept histogram score is at least the score of every fitting candidate |
| Recognition.HistBestAttained | core/image_recognition.py:274-293 | a positive best is the score of the first fitting candidate reaching it, at that candidate's position with the template's size |
| Recognition.HistogramMatch | core/image_recognition.py:233-243 | unknown name or `None` inputs give `(False, (0,0,0,0), 0.0)` |
| Recognition.HistogramMatchProperties | core/image_recognition.py:252-298 | no candidate or a raising correlation gives the zero result; otherwise found iff best ≥ threshold, the best bounds every fitting candidate's histogram score and, when positive, is attained at the reported box (reported even when not found) |
| Recognition.ImageRecognition.constructor | core/image_recognition.py:10-22 | the store starts as the templates loaded from the directory listing |
| Recognition.ImageRecognition.LoadTemplates | core/image_recognition.py:24-45 | the loop leaves the table `Load(old table, listing)` and returns the decoded-file count |
| Recognition.ImageRecognition.AddTemplate | core/image_recognition.py:47-55 | sets exactly one key |
| Recognition.ImageRecognition.FindTemplate | core/image_recognition.py:57-145 | the step-by-step best update computes `TemplateMatch` |
| Recognition.ImageRecognition.FindAllTemplates | core/image_recognition.py:147-200 | the candidate and filtering loops compute `AllMatches` |
| Recognition.ImageRecognition.FindByHistogram | core/image_recognition.py:219-298 | the best-match loop computes `HistogramMatch` |
| Executor.Click | core/action_executor.py:29-50 | no handle gives False and no call; the window is brought to the front iff `ensure_foreground`; the mouse message comes last and its result is the answer |
| Executor.PressKey | core/action_executor.py:52-66 | no handle gives False; otherwise one key message, whose result is the answer |
| Executor.TextEffect | core/action_executor.py:68-95 | no handle gives False; otherwise True whatever the key presses answered |
| Executor.TypedCodes | core/action_executor.py:83-90 | only codes in [32, 126] are pressed, at most one per character |
| Executor.TextTrace | core/action_executor.py:83-95 | the calls `send_text` makes, character by character; specified by the three lemmas below |
| Executor.CharPressesTypable | core/action_executor.py:85-93 | one character presses its upper-cased code only when it is typable, and pauses once exactly when the delay is positive |
| Executor.TextPressesTypable | core/action_executor.py:83-95 | `send_text` presses exactly the typable characters' upper-cased codes, in order |
| Executor.TextPausesPerCharacter | core/action_executor.py:83-95 | `send_text` pauses once per character when the delay is positive, never otherwise |
| Executor.TextOnlyClicksAndPauses | core/action_executor.py:83-95 | `send_text` makes only "click" key presses to its own window and pauses of the given delay |
| Executor.PrintableTextFullyTyped | core/action_executor.py:83-87 | printable ASCII text is typed in full, each character as its upper-case code |
| Executor.MoveWindow | core/action_executor.py:97-125 | no handle gives False; success means one move call that did not raise |
| Executor.MoveWindowSize | core/action_executor.py:113-125 | a missing width is `right - left`, a missing height `bottom - top`, given values are kept; success iff the move does not raise |
| Executor.ExecuteAction | core/action_executor.py:127-170 | no handle or an unknown type gives False; `click` ends with the mouse message at the given (or default 0, 0, `left`) point and button, brings the window to the front iff `ensure_foreground` (default True), and succeeds iff the window is valid and the button known; `key` sends exactly one key message with the given (or default 0, `click`) key and press type; `text` always succeeds, presses exactly the typable characters' codes and pauses once per character iff the delay (default 0.01) is positive; `move_window` on a valid window makes exactly one move to the given position with the given size (current size by default) and succeeds iff it does not raise, and fails on an invalid one; `wait` sleeps its seconds (default 1) |
| Executor.ExecuteActionDefaults | core/action_executor.py:141-167 | with no parameters each action uses its stated defaults (0, 0, `left`, foreground, key 0, `click`, empty text, current size, 1 second) |
| Executor.ActionExecutor.constructor | core/action_executor.py:11-18 | the executor starts aimed at the given handle |
| Executor.ActionExecutor.SetTargetWindow | core/action_executor.py:20-27 | changes only the target handle |
| Executor.ActionExecutor.SendText | core/action_executor.py:68-95 | the per-character loop computes `TextEffect` |
| ProgramMonitoring.SettingsOf | monitoring/program_monitor.py:29-33 | a given title or interval is kept, an absent one becomes `''` or 1.0; class and rules are taken as given |
| ProgramMonitoring.RelativeClickInsideBox | monitoring/program_monitor.py:167-182 | a relative click with fractions in [0, 1) lands inside the matched box, offset by the window corner |
| ProgramMonitoring.AbsoluteClickOffsetsByCorner | monitoring/program_monitor.py:167-182 | without a position or without `relative`, the screen point is `int()` of the raw x/y (0 when absent) offset by the window's `(left, top)` |
| ProgramMonitoring.RelativeClickOffsetsByBox | monitoring/program_monitor.py:167-182 | with a position and `relative`, the screen point is the box corner plus `int(w * x)`, `int(h * y)` (fractions 0 when absent), offset by the window's corner |
| ProgramMonitoring.AbsoluteClickTruncates | monitoring/program_monitor.py:175-182 | an absolute whole coordinate is kept, 10.7 becomes 10, -0.5 becomes 0 and an absent one 0 |
| ProgramMonitoring.ScaledFractionBelow | monitoring/program_monitor.py:173-174 | `int(n * f)` for a positive extent and a fraction in [0, 1) lies in [0, n) |
| ProgramMonitoring.ScreenPoint | monitoring/program_monitor.py:167-182 | the click point of an action; specified by the lemmas above |
| ProgramMonitoring.KeyName | monitoring/program_monitor.py:197 | codes 32-126 map to their one character, every other code to `{VK` + its decimal digits + `}` |
| ProgramMonitoring.KeyNameReadsBack | monitoring/program_monitor.py:197 | the name of a code above 126 is at least five characters, `{VK` … `}`, and its digits read back as the code |
| ProgramMonitoring.DecimalStringInjective | monitoring/program_monitor.py:197 | distinct codes have distinct decimal strings |
| ProgramMonitoring.KeyNameInjective | monitoring/program_monitor.py:197 | distinct key codes get distinct key names |
| ProgramMonitoring.ActionCalls | monitoring/program_monitor.py:154-222 | every action starts with the foreground call, the 0.5 s pause and the `pydirectinput` import, ends with its own `delay` pause when it has one, and reports success iff its type is `click`, `key`, `text` or `wait` |
| ProgramMonitoring.ActionRun | monitoring/program_monitor.py:150-233 | an invalid handle raises before any call; a completed action issued exactly its planned calls; success iff completed and of a known type |
| ProgramMonitoring.RunActions | monitoring/program_monitor.py:150-237 | the calls of the action loop; specified by the two lemmas below |
| ProgramMonitoring.ChainStopsAtFirstAbandon | monitoring/program_monitor.py:150-237 | the run is the concatenation of the actions up to and including the first one that raised while required; none before it did |
| ProgramMonitoring.RunActionsAbandonsOnlyOnRequiredRaise | monitoring/program_monitor.py:223-237 | remaining actions are dropped only after an action that raised and has `required`; an unknown type or an unrequired failure continues |
| ProgramMonitoring.RunActionsDrive | monitoring/program_monitor.py:150-233 | actions never look windows up, capture or recognise |
| ProgramMonitoring.ProcessFound | monitoring/program_monitor.py:340-384 | the calls made for a found template; specified by the two lemmas below |
| ProgramMonitoring.ProcessFoundClicksCentre | monitoring/program_monitor.py:359-379 | with `click_on_image`, a left click at `(x + w//2, y + h//2)` is followed by a 0.2 s pause and then the rule's actions |
| ProgramMonitoring.ProcessFoundRecognisesNothing | monitoring/program_monitor.py:340-384 | handling a found template runs no recognition |
| ProgramMonitoring.RuleMatch | monitoring/program_monitor.py:115-133 | definition of the recognition a rule asks for (histogram when `match_method` is `histogram`, template matching otherwise); used by `RuleRecognisesOnce` and `RuleMatchMeetsThreshold` |
| ProgramMonitoring.RuleMatchMeetsThreshold | monitoring/program_monitor.py:117-133 | a rule reports a match only at or above its `threshold`, 0.8 when it gives none, with either strategy |
| ProgramMonitoring.RuleTrace | monitoring/program_monitor.py:108-139 | a rule without a template or without actions makes no call; otherwise its first call is the recognition of its template with the strategy its `match_method` names |
| ProgramMonitoring.RulesTrace | monitoring/program_monitor.py:107-139 | the calls of `check_rules`, rule after rule; specified by `RulesRecogniseEligible` and `RulesNoLookup` |
| ProgramMonitoring.RuleRecognisesOnce | monitoring/program_monitor.py:108-139 | one rule runs exactly one recognition, with the histogram strategy exactly when `match_method == 'histogram'`, when it has a template and actions, and none otherwise; the actions a match triggers recognise nothing |
| ProgramMonitoring.RulesRecogniseEligible | monitoring/program_monitor.py:107-139 | `check_rules` runs one recognition per rule with a template and actions, in list order, with the histogram strategy exactly when `match_method == 'histogram'` |
| ProgramMonitoring.RulesNoLookup | monitoring/program_monitor.py:107-139 | checking rules never looks a window up |
| ProgramMonitoring.Locate | monitoring/program_monitor.py:51-72 | exact lookup first, then the first partial-title match; no title keeps the handle; True iff the handle is non-zero and valid |
| ProgramMonitoring.CyclePausedIdles | monitoring/program_monitor.py:79-81 | a paused cycle looks nothing up, captures nothing and keeps the handles |
| ProgramMonitoring.CycleLostWindowSkipsCapture | monitoring/program_monitor.py:84-88 | when the handle is invalid and the lookup fails, nothing is captured or recognised |
| ProgramMonitoring.LocateRecognisesNothing | monitoring/program_monitor.py:51-72 | finding the window runs no recognition |
| ProgramMonitoring.Observe | monitoring/program_monitor.py:90-98 | one observation starts by capturing the window and ends with one monitoring-interval pause |
| ProgramMonitoring.Cycle | monitoring/program_monitor.py:78-98 | one loop iteration; specified by the `Cycle…` lemmas and `ObserveRecognitions` |
| ProgramMonitoring.ObserveRecognitions | monitoring/program_monitor.py:91-98 | a `None` capture checks no rule; otherwise the eligible rules are recognised once each |
| ProgramMonitoring.CycleRecognitions | monitoring/program_monitor.py:78-98 | a cycle on a valid handle does no lookup and keeps the handle; a successful lookup retargets the executor; recognitions are those of the eligible rules iff the capture succeeds |
| ProgramMonitoring.ProgramMonitor.constructor | monitoring/program_monitor.py:19-49 | name defaults to `Unknown Program`; not running, not paused, handle 0, thread not started; fresh recogniser and executor |
| ProgramMonitoring.ProgramMonitor.FindWindow | monitoring/program_monitor.py:51-72 | updates the handle as `Locate` says and retargets the executor only on success |
| ProgramMonitoring.ProgramMonitor.ExecuteActions | monitoring/program_monitor.py:142-237 | the action loop with `break` computes `RunActions` |
| ProgramMonitoring.ProgramMonitor.ProcessFoundTemplate | monitoring/program_monitor.py:340-384 | front, optional centre click and actions, as `ProcessFound` |
| ProgramMonitoring.ProgramMonitor.CheckRules | monitoring/program_monitor.py:100-139 | the rule loop computes `RulesTrace` |
| ProgramMonitoring.ProgramMonitor.ObserveWindow | monitoring/program_monitor.py:90-98 | capturing the current window, checking the rules on a successful capture and waiting one interval is `Observe` |
| ProgramMonitoring.ProgramMonitor.Step | monitoring/program_monitor.py:74-98 | a stopped thread finishes; otherwise one cycle of `Cycle`, updating the handle and the executor's target |
| ProgramMonitoring.ProgramMonitor.Start | monitoring/program_monitor.py:74-76 | `Thread.start`: starts iff never started (a second start raises), then the loop runs |
| ProgramMonitoring.ProgramMonitor.Pause | monitoring/program_monitor.py:386-388 | sets only `paused` |
| ProgramMonitoring.ProgramMonitor.Resume | monitoring/program_monitor.py:390-392 | clears only `paused` |
| ProgramMonitoring.ProgramMonitor.Stop | monitoring/program_monitor.py:394-396 | clears only `running` |
| AutoClick.Guarded | monitoring/auto_click_monitor.py:52-66 | a driver call raises unless the driver is loaded and exports the function; it reaches the driver only then |
| AutoClick.PressRelease | monitoring/auto_click_monitor.py:189-204 | a press-release pair succeeds iff neither call raised |
| AutoClick.DriverAttempt | monitoring/auto_click_monitor.py:176-211 | an unloaded driver makes no call and fails; success needs a loaded driver exporting `DD_mouse` or `DD_key` |
| AutoClick.Win32Attempt | monitoring/auto_click_monitor.py:213-243 | the `win32api` attempt succeeds iff neither the cursor move nor the button down nor the button up raises; a success ends by moving the cursor back to the position read at its start |
| AutoClick.DriverCursor | monitoring/auto_click_monitor.py:181-220 | the position `GetCursorPos` reads: the target when the driver attempt issued a `DD_move` that went through, otherwise the cursor before the chain |
| AutoClick.InputAttempt | monitoring/auto_click_monitor.py:245-254 | the `pydirectinput` attempt succeeds iff neither `moveTo` nor `click` raises |
| AutoClick.TryClick | monitoring/auto_click_monitor.py:166-261 | the driver → win32 → direct-input chain; specified by the `TryClick…` lemmas |
| AutoClick.DriverAttemptEvents | monitoring/auto_click_monitor.py:176-211 | the ClassDD attempt issues only driver calls and pauses |
| AutoClick.Win32AttemptEvents | monitoring/auto_click_monitor.py:213-243 | the `win32api` attempt issues only cursor and mouse-button calls and pauses |
| AutoClick.InputAttemptEvents | monitoring/auto_click_monitor.py:245-254 | the `pydirectinput` attempt issues only its own calls and pauses |
| AutoClick.TryClickOkIffSomeAttempt | monitoring/auto_click_monitor.py:166-257 | the chain reports success exactly when one strategy succeeded |
| AutoClick.TryClickStopsAfterDriver | monitoring/auto_click_monitor.py:176-211 | once the driver attempt worked, neither `win32api` nor `pydirectinput` is called |
| AutoClick.TryClickStopsAfterWin32 | monitoring/auto_click_monitor.py:213-248 | once `win32api` worked after a failed driver attempt, `pydirectinput` is not called |
| AutoClick.TryClickAbsentDriverUncalled | monitoring/auto_click_monitor.py:166-257 | an unloaded driver is never called |
| AutoClick.TryClickSuccessReleases | monitoring/auto_click_monitor.py:189-252 | a successful click includes a button release that did not raise |
| AutoClick.Win32FallbackRestoresCursor | monitoring/auto_click_monitor.py:181-241 | when the win32 fallback is the one that works, it releases the button and its last call moves the cursor to the target if the driver's `DD_move` went through, and back to the position before the chain otherwise |
| AutoClick.DriverMoveFailureIgnored | monitoring/auto_click_monitor.py:181-196 | a failing `DD_move` does not stop a `DD_mouse` click, and then nothing else is tried |
| AutoClick.ClickTarget | monitoring/auto_click_monitor.py:137-147 | the screen point clicked lies inside the matched box offset by the window corner |
| AutoClick.Clicks | monitoring/auto_click_monitor.py:143-153 | the click chain at the target followed by one interval pause; specified by `WatchClicksCentreOfMatch` |
| AutoClick.Look | monitoring/auto_click_monitor.py:119-163 | a cycle on a live window starts with a capture and ends with one interval pause; a `None` capture recognises nothing |
| AutoClick.Watch | monitoring/auto_click_monitor.py:110-163 | the loop goes on iff the window is valid, and a dead window makes no call |
| AutoClick.WatchGuards | monitoring/auto_click_monitor.py:110-127 | the loop goes on iff the window is valid; an invalid window issues nothing; a `None` capture recognises and clicks nothing; a cycle starts with a capture and ends with a pause |
| AutoClick.WatchClicksCentreOfMatch | monitoring/auto_click_monitor.py:130-163 | on a match the click chain aims at the box centre offset by the window corner, inside the box, followed by two pauses; otherwise one pause |
| AutoClick.AutoClickMonitor.constructor | monitoring/auto_click_monitor.py:74-89 | interval defaults to 5.0 and threshold to 0.7; not running |
| AutoClick.AutoClickMonitor.Start | monitoring/auto_click_monitor.py:91-100 | refuses iff the thread is alive; otherwise running and alive |
| AutoClick.AutoClickMonitor.Stop | monitoring/auto_click_monitor.py:102-106 | clears `running` |
| AutoClick.AutoClickMonitor.TryClickMethods | monitoring/auto_click_monitor.py:166-261 | the early-return try chain computes `TryClick` |
| AutoClick.AutoClickMonitor.ClickFound | monitoring/auto_click_monitor.py:135-153 | clicks the centre of the match, then pauses |
| AutoClick.AutoClickMonitor.Inspect | monitoring/auto_click_monitor.py:119-163 | capture, recognition and click of one cycle, as `Look` |
| AutoClick.AutoClickMonitor.Step | monitoring/auto_click_monitor.py:108-163 | one loop cycle as `Watch`; an invalid window clears `running` and ends the thread |
| Fleet.Created | monitoring/monitor_manager.py:69-97 | no key is removed; at most one count per configuration |
| Fleet.CreatedStep | monitoring/monitor_manager.py:79-95 | one more named configuration leaves table and count unchanged when its name's monitor is alive; otherwise it puts a fresh monitor under that name and adds one to the count |
| Fleet.CreatedSkipsUnnamed | monitoring/monitor_manager.py:80-82 | a configuration without a name changes nothing and is not counted |
| Fleet.CreatedNewKeysNamed | monitoring/monitor_manager.py:79-93 | every new key is the name of a named configuration |
| Fleet.CreatedKeepsAlive | monitoring/monitor_manager.py:85-88 | an alive monitor is never replaced |
| Fleet.CreatedCountsDuplicates | monitoring/monitor_manager.py:85-95 | two configurations with one name whose monitor is not alive both count, and the second one is kept |
| Fleet.Apply | monitoring/monitor_manager.py:99-179 | each bulk operation changes a monitor only when it acts on it, never its handle or title, and only start changes liveness |
| Fleet.StartAllOutcome | monitoring/monitor_manager.py:99-117 | after starting all, nothing is left unstarted, finished threads stay finished, and the count is the number of never-started monitors |
| Fleet.StartAllTwiceStartsNothing | monitoring/monitor_manager.py:99-117 | a second start-all starts and changes nothing |
| Fleet.BulkKeepsLiveness | monitoring/monitor_manager.py:119-179 | stopping, pausing and resuming never change which threads are alive |
| Fleet.Acts | monitoring/monitor_manager.py:99-179 | which monitors a bulk operation acts on (never started; alive; alive and unpaused; alive and paused); used by the lemmas above |
| Fleet.Bulk | monitoring/monitor_manager.py:99-179 | a bulk operation keeps the set of names and applies `Apply` to each monitor |
| Fleet.StopAllOutcome | monitoring/monitor_manager.py:119-139 | stop-all counts exactly the alive monitors and clears their `running` |
| Fleet.PauseAllOutcome | monitoring/monitor_manager.py:141-159 | after pause-all every alive monitor is paused; the alive unpaused (the count) and the alive paused make up all alive monitors |
| Fleet.ResumeAfterPause | monitoring/monitor_manager.py:141-179 | resume-all after pause-all counts every alive monitor and leaves none paused |
| Fleet.StatusOf | monitoring/monitor_manager.py:188-198 | `paused` and `hwnd` are `None` exactly when the monitor is not alive; the title is always present |
| Fleet.MonitorManager.constructor | monitoring/monitor_manager.py:11-21 | the table starts empty |
| Fleet.MonitorManager.CreateMonitors | monitoring/monitor_manager.py:69-97 | the configuration loop leaves the table and count of `Created`, fresh monitors under distinct names |
| Fleet.MonitorManager.StartAllMonitors | monitoring/monitor_manager.py:99-117 | the loop over the table computes `Bulk(StartAll)` and counts `Selected(StartAll)` |
| Fleet.MonitorManager.StopAllMonitors | monitoring/monitor_manager.py:119-139 | the loop computes `Bulk(StopAll)` and counts the alive monitors |
| Fleet.MonitorManager.PauseAllMonitors | monitoring/monitor_manager.py:141-159 | the loop computes `Bulk(PauseAll)` and counts the alive unpaused monitors |
| Fleet.MonitorManager.ResumeAllMonitors | monitoring/monitor_manager.py:161-179 | the loop computes `Bulk(ResumeAll)` and counts the alive paused monitors |
| Fleet.MonitorManager.ApplyNamed | monitoring/monitor_manager.py:108-114 | one loop iteration changes only the named monitor, as `Apply` says, and reports whether it acted |
| Fleet.MonitorManager.ApplyEach | monitoring/monitor_manager.py:99-179 | the shared loop applies the operation to every monitor and counts exactly those it acts on |
| Fleet.MonitorManager.ApplyAll | monitoring/monitor_manager.py:99-179 | the table becomes `Bulk` of the old one and the count is the number of monitors selected |
| Fleet.MonitorManager.GetMonitorStatus | monitoring/monitor_manager.py:181-198 | one entry per name, each `StatusOf` that monitor |

## Left out

- OpenCV numerics (`matchTemplate`, `cvtColor` pixel values, `calcHist`, `normalize`, `compareHist`, `_calc_color_histogram`) are the inputs `Kernels.correlate` and `Kernels.histCorrel`. Only image shape and channel count are modelled.
- Floating point: confidences, thresholds, intervals and relative fractions are `real`. Rounding is not modelled; `int()` truncation is.
- `core/window_utils.py` is not part of this model. Each of its calls (`find_window`, `find_windows_by_title`, `capture_window`, `set_foreground`, `send_mouse_click`, `send_key`, `get_window_rect`) is one `Event`, with its answer read from the `Os` value.
- Threads and timing: `threading.Thread`, `join` timeouts (1 s in `stop_all_monitors`, 2 s in `AutoClickMonitor.stop`) and races on the shared flags are not modelled. A monitor loop is one `Step` per iteration, and liveness is `NotStarted | Alive | Finished`. `join` is taken to return with liveness unchanged.
- `WindowUtils.set_foreground` (core/window_utils.py:97-107) can raise from its fallback `SetForegroundWindow`; the model takes `BringToFront` never to raise. In `_process_found_template` such a raise would skip the centre click and all the rule's actions; inside `ActionExecutor.click` it would escape `click`, and in the centre click it would skip the 0.2 s pause.
- `time.sleep` is an event. The `ValueError` a negative duration raises is not modelled.
- `pydirectinput.PAUSE` is recorded with the `write` event; its pacing of individual key strokes is not modelled. `import pydirectinput` is the event `ImportInput`, issued by every action after the foreground call and its 0.5 s pause; a desktop that refuses it makes every action raise at that point.
- `GetWindowText`, `GetForegroundWindow` and the log and print calls have no effect on decisions and are left out. `GetCursorPos` is not an event: the cursor before the click chain is `Os.cursor`, and what the win32 fallback reads is `DriverCursor`, which takes an accepted `DD_move` to put the cursor at the target.
- `ProgramMonitor.game_mode_enabled` reads an attribute the class never sets, and `execute_game_action` has no caller; both are left out.
- `MonitorManager.load_system_config` and `load_program_configs` (YAML files): `create_monitors` takes the configuration list as a parameter. Constructor failures inside `create_monitors` are not modelled.
- The template directory is a listing of `(file name, decoded image or None)` pairs; `os.listdir`, `isdir` and `imread` are not modelled.
- `AutoClickMonitor` reaches the recogniser through its `gui` reference; the model passes the `ImageRecognition` object instead. The ClassDD DLL load is the `Driver` value (absent, or loaded with its exported functions).
- Character case mapping is ASCII only; `upper()` results longer than one character are not modelled.
- Exceptions escaping `run()` (such as the channel mismatch in Findings) would end the monitor thread; the model uses the corrected conversion, so none escape.

## Findings

| source | as written | input that shows it | evidently intended | confidence | as-written member | corrected member |
|---|---|---|---|---|---|---|
| core/image_recognition.py:93-97 | on a channel mismatch, the side with fewer channels is converted with `COLOR_BGR2GRAY`: a gray template against a colour capture converts the template, and a colour template against a gray capture converts the capture | a 3-channel capture with a 1-channel template (or the reverse): `cvtColor(BGR2GRAY)` on a single-channel image raises, outside any `try`, so `find_template` raises instead of returning not found (the same at lines 171-175 in `find_all_templates`) | convert the colour side to gray, so both sides have one channel | not executed | Recognition.ConvertAsWrittenRaisesOnMismatch | Recognition.Harmonise |
