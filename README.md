# Live speech translation overlay — a Dafny model of its core

The application shows live subtitles. A headless browser runs the Web Speech
API and posts recognition results over a WebSocket. The main program decides
which results are worth translating, and a worker thread translates the newest
pending one into Chinese. A borderless Tk window shows the line with its
translation, archives finished lines into a short history, and animates its
own height.

This project models that core and proves its properties:

- `AppMain` (`main.py`): the trigger policy of `process_queue`. It covers
  final results, long interim results with a debounce and short ones on a
  timeout, plus deduplication. It also models the latest-wins drain of
  `_translation_worker` and the display text and finality handed to the
  window.
- `Overlay` (`ui_overlay.py`): the `OverlayWindow` object.
  - Its text state: labels, last line, the history with FIFO eviction, the
    clean text of an archived line, the Han zero-width-space formatting, and
    the first-history automatic expand.
  - Its resize machine: `update_height` with its deferred shrink job,
    `_execute_shrink`, and the frames of `_animate_loop`.
  - The `_is_closing` guard on every operation.
- `Translator` (`translator_service.py`):
  - how `translate` handles blank input and shapes error messages;
  - the retry-then-refresh policy of `SmartSession.request`;
  - the environment variables `_setup_proxy` writes.
- `Speech` (`speech_service.py`):
  - the browser's `onresult` aggregation;
  - the WebSocket handler's message dispatch;
  - the `--proxy-server` argument given to Chrome.
- `PyStrings`, `Wrappers`, `Settings`: the Python string operations the
  core relies on (`strip`, `split(sep)[0]`, `replace`, `startswith`,
  `in`), an `Option` for missing dictionary keys, and the `proxy` section
  of the configuration.

State that the source changes in place is modelled as classes:
`OverlayWindow`, the `AppController` queues and trigger state,
`SmartSession`, and the process `Environment`. Each class method is specified
against a pure function of the old state, such as `Resize`, `Tick`, `Commit`,
`Archive`, `Run`, `Plan` or `ProxyEnv`. The properties that matter are proved
about those functions. Timers become explicit state: `shrinkJob` is the
pending `after(delay, _execute_shrink)` and `autoTogglePending` is the
pending `after(100, toggle_history)`. Their firing is a method of its own
(`FireShrinkJob`, `FireAutoToggle`). Clock readings, widget heights, the
translation engine's outcome and network outcomes are parameters.

## Model

| member | source | states |
|---|---|---|
| AppMain.Decide | main.py:214-243 | a translation is requested only with reason "[Final]", "[Len]" or "[Time]", and with "[Final]" exactly for a final message with new text |
| AppMain.DecideDedup | main.py:220 | a text equal to the last translated text never triggers a translation |
| AppMain.DecideFinal | main.py:221-224 | a new final result always triggers, with reason "[Final]" |
| AppMain.DecideLong | main.py:228-239 | a new interim text of at least interim_translate_trigger_threshold characters triggers "[Len]" exactly when more than interim_debounce_interval has passed since the last translation, and otherwise nothing: never "[Time]" or "[Final]" |
| AppMain.DecideShort | main.py:226-243 | a shorter new interim text triggers "[Time]" exactly when it is at least interim_translate_min_threshold long and more than interim_translate_timeout has passed, and otherwise nothing: never "[Len]" or "[Final]", and never when below the minimum |
| AppMain.Step | main.py:220-249 | one drained message: the request Decide gives, if any, and the trigger state it leaves (its properties: AppMain.StepUpdatesOnTrigger) |
| AppMain.StepUpdatesOnTrigger | main.py:245-249 | a message requests a translation iff the policy triggers; then the request is (text, reason) and the last time and text become the message's, otherwise the trigger state is unchanged |
| AppMain.Run | main.py:199-254 | the fold of Step over the drained messages, each read at its own time (its properties: the Run* lemmas below; AppMain.AppController.ProcessQueue is proved against it) |
| AppMain.RunRequestsTagged | main.py:199-249 | over any sequence of messages, every queued request is a (text, reason) pair with one of the three reasons |
| AppMain.RunTracksLastRequest | main.py:246-249 | after any sequence of messages with a request, the trigger state is the text and read time of one message i whose prefix of the run already made every request, and that text is the last request's; without requests the state is unchanged |
| AppMain.RunNeverRepeats | main.py:220-249 | no two consecutive requests carry the same text |
| AppMain.RunRepeatsNothing | main.py:220 | a run of messages that all repeat the last translated text requests nothing and changes nothing |
| AppMain.DebounceScenario | main.py:228-243 | with the defaults, a 51-character interim at 0.5 s sends nothing (debounce); the same text at 2.5 s is sent as "[Len]"; its final version extended by "!" at 2.7 s is sent as "[Final]" |
| AppMain.AppController.constructor | main.py:83-90 | the controller starts with empty queues, last translate time 0 and no last text |
| AppMain.AppController.OnSpeechResult | main.py:196-197 | a speech result is appended to the message queue and nothing else changes |
| AppMain.AppController.ProcessQueue | main.py:199-254 | the message queue is emptied; every text is shown in order; the translation queue gains exactly the requests of the trigger policy over the messages, and the trigger state becomes its final state |
| AppMain.AppController.HandleMessage | main.py:201-249 | one message is shown, then its request, if any, is queued and the trigger state advanced |
| AppMain.DrainLatest | main.py:150-169 | from a non-empty queue the worker keeps the last item, unpacked as (text, reason) with reason "" for a bare text, and counts every earlier item as skipped |
| AppMain.AppController.TakeLatest | main.py:148-169 | the translation queue is emptied and the newest task is returned with the number of older ones dropped |
| AppMain.WorkerOutput | main.py:176-188 | the worker updates the window iff the text is non-empty and a translator is loaded, and always passes the source text |
| AppMain.WorkerFinality | main.py:187 | the line is final iff its reason is "[Final]" |
| AppMain.DisplayText | main.py:183 | the line the worker shows: translation, reason and timing suffix (its property: AppMain.DisplayTextCleans) |
| AppMain.DisplayTextCleans | main.py:183 | archiving a displayed line recovers the stripped translation: the window's clean text removes the reason tag and the timing suffix the worker appended |
| AppMain.WorkerErrorNotArchived | ui_overlay.py:255 | a worker line carrying an engine error never causes the previous line to be archived |
| Overlay.CleanTextMarkerFree | ui_overlay.py:260 | the clean text of a line contains none of the four markers |
| Overlay.CleanTextIsHead | ui_overlay.py:260 | the clean text is the stripped prefix of the line up to the first marker cut, which ends at the line's end or at a marker |
| Overlay.CleanText | ui_overlay.py:260 | the clean text of a line: cut at " (耗时", " [Final]", " [Len]" and " [Time]" in turn, then stripped (its properties: Overlay.CleanTextMarkerFree, Overlay.CleanTextIsHead) |
| Overlay.IsNewRecord | ui_overlay.py:256-257 | the line-change test: the previous line was final, or the new line is shorter and does not start with the previous one's first three characters |
| Overlay.Archives | ui_overlay.py:255-261 | all conditions for archiving the previous line; Overlay.OverlayWindow.UpdateTranslation archives exactly when it holds |
| Overlay.WrapHanInvisible | ui_overlay.py:310 | wrapping Han characters in zero-width spaces changes nothing visible; a text without zero-width spaces is shown exactly |
| Overlay.WrapHan | ui_overlay.py:310 | each character in U+4E00..U+9FA5 is surrounded by zero-width spaces, and the text never gets shorter |
| Overlay.RenderRowsShows | ui_overlay.py:300-323 | there is one row per history slot; row i shows entry i, oldest first, with its text wrapped, "[time]" and a bullet; rows past the history are blank |
| Overlay.Archive | ui_overlay.py:263-267 | appending keeps a history within capacity, the new entry is last, and below capacity nothing is evicted |
| Overlay.ArchiveKeepsNewest | ui_overlay.py:263-267 | after any number of archives the history is exactly the newest history.count entries, oldest first |
| Overlay.StepSize | ui_overlay.py:446-459 | growth moves at least one unit and never past the target; shrink moves at most 2 units and, for a factor in (0, 1], at least the factor and never past the target |
| Overlay.FinalHeightBounds | ui_overlay.py:350-363 | the height update_height asks for is at least ui.height and the content plus the control bar, each plus 10, and expanding adds exactly the history frame's height |
| Overlay.Tick | ui_overlay.py:430-476 | within one unit the frame snaps to the target and stops; otherwise it keeps animating and moves toward the target by the step bounds; either way the window is settled afterwards |
| Overlay.AnimationConverges | ui_overlay.py:430-476 | with a factor in (0, 1], a gap below 1 + n * factor is closed exactly, and the animation stopped, within n + 1 frames |
| Overlay.Resize | ui_overlay.py:363-414 | growth or an immediate request cancels the shrink job and sets the target; an immediate shrink snaps at once; a deferred shrink keeps a pending job within 2 units, else re-arms it with 1 s for a gap over 100 or shrink_delay; growth leaves the window settled (idle only at its target), and a settled window stays settled |
| Overlay.ResizeKeepsValid | ui_overlay.py:363-428 | update_height and a fired shrink job keep the pending job for the recorded pending height below the target, and keep an idle window at its target |
| Overlay.Commit | ui_overlay.py:418-428 | _execute_shrink empties the job slot and lowers the target only to a smaller height, then starts the animation if idle, so the window stays settled |
| Overlay.FiredJobCommits | ui_overlay.py:418-428 | a pending shrink job, when it fires, always lowers the target to its height |
| Overlay.OverlayWindow.constructor | ui_overlay.py:13-40 | the window starts collapsed, with no history, "Waiting for speech..." on the English label and "等待语音输入..." on the Chinese one (ui_overlay.py:153, 165), at height 10 with target 0, then runs one update_height, which leaves it settled |
| Overlay.OverlayWindow.AnimateTick | ui_overlay.py:430-476 | one frame moves the geometry by Tick and leaves the text state alone; closing makes it a no-op |
| Overlay.OverlayWindow.UpdateHeight | ui_overlay.py:341-416 | the geometry becomes Resize of the old one for the measured final height |
| Overlay.OverlayWindow.ApplyHeight | ui_overlay.py:363-380 | the growth-or-immediate branch of update_height |
| Overlay.OverlayWindow.DeferShrink | ui_overlay.py:383-414 | the deferred-shrink branch of update_height |
| Overlay.OverlayWindow.ExecuteShrink | ui_overlay.py:418-428 | the geometry becomes Commit of the old one; closing makes it a no-op |
| Overlay.OverlayWindow.FireShrinkJob | ui_overlay.py:409-428 | the timer's callback commits the job's own height: the geometry becomes Commit of the old one at that height, so the slot empties and the target drops to it; closing makes it a no-op |
| Overlay.OverlayWindow.ToggleHistory | ui_overlay.py:325-339 | without history nothing happens; otherwise the expanded state flips and the height is re-measured immediately |
| Overlay.OverlayWindow.FireAutoToggle | ui_overlay.py:288-292 | the scheduled call of toggle_history clears its pending mark and flips the expanded state, with an immediate resize; if the history was expanded meanwhile, it collapses it |
| Overlay.OverlayWindow.UpdateHistoryView | ui_overlay.py:280-323 | the first history marks it seen and, when collapsed, schedules the toggle; the rows show the history |
| Overlay.OverlayWindow.ArchiveLine | ui_overlay.py:262-268 | the history becomes Archive of the old one and the view is refreshed |
| Overlay.OverlayWindow.ShowTranslation | ui_overlay.py:255-274 | the chosen entry, if any, is archived, and the new line is shown and remembered |
| Overlay.OverlayWindow.ShowLine | ui_overlay.py:270-274 | the labels show the new line, which becomes the last line seen |
| Overlay.OverlayWindow.UpdateTranslation | ui_overlay.py:250-278 | the previous line is archived under its clean text exactly when it was non-empty, the new line is no error, the line changed (previous final, or a shorter text not starting with its first three characters) and the clean text is non-empty; the new line is shown and the height updated |
| Overlay.OverlayWindow.UpdateEnglish | ui_overlay.py:236-241 | the English label changes and the height is updated; closing makes it a no-op |
| Overlay.OverlayWindow.UpdateChinese | ui_overlay.py:243-248 | the Chinese label changes and the height is updated; closing makes it a no-op |
| Overlay.OverlayWindow.Quit | ui_overlay.py:487-489 | the window is marked closing and nothing else changes |
| PyStrings.Strip | translator_service.py:148 | strip is the piece of the text with only whitespace around it and no whitespace at its ends (so it is unique), and it is empty exactly when the text is all whitespace |
| PyStrings.SplitHead | ui_overlay.py:260 | split(sep)[0] is the prefix before the first occurrence of sep: no occurrence starts inside it, and it ends at an occurrence or at the text's end |
| PyStrings.ReplaceAllAbsent | translator_service.py:158 | replace leaves a text in which the pattern does not occur unchanged |
| PyStrings.ReplaceCharWise | translator_service.py:158 | replacing one character by another keeps the length and maps the text character by character: every occurrence of the character becomes the replacement, every other character stays in place |
| PyStrings.ReplaceAllFirst | speech_service.py:283-284 | replace works left to right without overlap: the text before the first occurrence is kept, that occurrence becomes the replacement, and the scan resumes right after it |
| Translator.Translate | translator_service.py:147-161 | blank input translates to ""; otherwise the engine's text, or the error marker of the raised message |
| Translator.FlattenError | translator_service.py:158 | the error text with "\n" replaced by a space and "\r" removed (its properties: Translator.FlattenErrorClean) |
| Translator.TruncateError | translator_service.py:159-160 | the message kept when it is at most 40 characters, else its first 37 and "..." (its properties: Translator.TruncateErrorBound) |
| Translator.ErrorMarker | translator_service.py:158-161 | "[Err: " + the flattened, truncated message + "]" (its properties: Translator.ErrorMarkerShape) |
| Translator.FlattenErrorClean | translator_service.py:158 | the flattened error message has no line breaks and is no longer than the original |
| Translator.TruncateErrorBound | translator_service.py:159-160 | the shown message is at most 40 characters; longer ones keep their first 37 and end in "..." |
| Translator.ErrorMarkerShape | translator_service.py:158-161 | the error marker starts with "[Err", fits in 47 characters and has no line breaks |
| Translator.PlanPolicy | translator_service.py:50-80 | at most 4 attempts; the session is refreshed once exactly when the first three fail; the result is that of the last attempt and every earlier one failed |
| Translator.Plan | translator_service.py:50-80 | the attempts made for four attempt outcomes (its properties: Translator.PlanPolicy; Translator.SmartSession.Request is proved against it) |
| Translator.EffectiveTimeout | translator_service.py:62-63 | a caller's timeout is kept, otherwise 5 seconds |
| Translator.SmartSession.constructor | translator_service.py:23-25 | a new session object starts with one fresh session |
| Translator.SmartSession.Request | translator_service.py:50-80 | the request follows the retry plan, and the session is replaced once per refresh |
| Translator.SmartSession.RefreshSession | translator_service.py:27-48 | a refresh replaces the session |
| Translator.ProxyEnvRules | translator_service.py:115-144 | disabled leaves the environment alone; HTTP_PROXY/HTTPS_PROXY get the explicit address when truthy, otherwise socks5:// plus the SOCKS5 address when that is truthy, otherwise stay as they were; no other variable changes |
| Translator.ProxyEnv | translator_service.py:115-144 | the environment after _setup_proxy (its properties: Translator.ProxyEnvRules; Translator.Environment.SetupProxy is proved against it) |
| Translator.Environment.SetupProxy | translator_service.py:115-144 | the environment becomes ProxyEnv of the old one |
| Speech.OnResult | speech_service.py:118-145 | the messages the browser sends for one event are exactly those of the aggregation over results[resultIndex..], and none when the socket is closed |
| Speech.AggregatedMeaning | speech_service.py:121-136 | every final result is sent, in order, and the interim sent is the concatenation of the interim transcripts after the last final |
| Speech.EventInterimLast | speech_service.py:139-143 | an event sends at most one interim message, and only as its last |
| Speech.AggregatedFinalsAreFinal | speech_service.py:127-129 | every message sent from the loop is marked final |
| Speech.Aggregated | speech_service.py:121-136 | the finals sent and the interim text built by the loop over the results (its properties: Speech.AggregatedMeaning) |
| Speech.EventMessages | speech_service.py:118-145 | the messages one event sends (Speech.OnResult is proved against it; properties: Speech.EventInterimLast) |
| Speech.DispatchRules | speech_service.py:197-208 | typed messages are never delivered; "status" with a callback reports its state, and the connection aborts exactly when such a status has no state; "error" reports "Error: " plus the message or "Unknown Error"; other types and missing callbacks are ignored; untyped messages are delivered with "" and false as defaults |
| Speech.Dispatch | speech_service.py:197-208 | the branch of the handler taken for one message (its properties: Speech.DispatchRules) |
| Speech.Serve | speech_service.py:193-209 | the callbacks made for a connection's messages until one aborts (Speech.Handler is proved against it; properties: Speech.ServeDeliversResults, Speech.ServeStopsAtAbort) |
| Speech.Handler | speech_service.py:191-209 | the handler's effects are those of serving the messages in order until one aborts |
| Speech.ServeDeliversResults | speech_service.py:206-208 | every message the browser sends reaches the speech callback unchanged, in order |
| Speech.ServeStopsAtAbort | speech_service.py:193-209 | nothing after a message that raises inside the handler takes effect |
| Speech.ChromeProxyRules | speech_service.py:280-294 | disabled gives no argument; a non-empty HTTP address wins; else a non-empty SOCKS5 address with socks5://; else none |
| Speech.ChromeProxyArg | speech_service.py:280-294 | the --proxy-server argument (its properties: Speech.ChromeProxyRules and the two scheme lemmas below) |
| Speech.ChromeHttpSchemeStripped | speech_service.py:283 | an HTTP address given bare or with http:// or https:// becomes --proxy-server=address |
| Speech.ChromeSocksSchemeStripped | speech_service.py:284-293 | a SOCKS5 address given bare or with socks5:// becomes --proxy-server=socks5://address |

## Left out

- Tk widgets, fonts, colours, the drag handlers and `_apply_geometry`. Widget required heights are the `Layout` parameter, non-negative as Tk reports them. The `int()` sent to the window manager does not affect the state.
- Timers: `after` and `after_cancel` are modelled as the `shrinkJob` and `autoTogglePending` slots. When a timer fires is the caller's choice.
- Threads, the thread-safety of `queue.Queue`, and `root.after(0, …)` across threads. The worker's blocking `get()` on an empty queue is modelled by `DrainLatest`'s requirement of a non-empty queue.
- Floating point: heights, factors and times are `real`. `int(delay_sec * 1000)` is modelled as truncation toward zero.
- Clocks and dates: `time.time()`, the translation duration as `:.2f` text and the `%H:%M:%S` timestamp are parameters.
- Configuration loading and saving, the `config.json` write in `quit`, `shutdown` and its process kill, `StreamToLogger`, the exception hooks and all logging.
- Selenium and Chrome startup, the HTTP and WebSocket servers, JSON encoding and decoding, the page's watchdog and reconnect code, and the page's `outputDiv`/`statusDiv` text.
- The translation engine, `requests`, random User-Agent choice, the monkey-patching of the engine's session, and the `lru_cache` on `translate`. The engine's outcome and each attempt's success are inputs.
- JSON `null` values in the configuration or in messages: a key is either missing (`None`) or holds a string or boolean.
- The bare `except: pass` blocks around the window methods: the modelled paths raise nothing.
- AppMain.AppController.ProcessQueue: the English label update is recorded in the `englishShown` log instead of calling `OverlayWindow.UpdateEnglish`. The window's own behaviour is modelled separately.
- Overlay.Tick: the second stop test in `_animate_loop` re-tests the same `abs(diff) < 1.0` that has just failed, so it can never fire and has no counterpart.
- The running application passes no `status_callback` to the speech service (`main.py:123`). The model keeps the callback as a parameter and covers both cases.
- One request is queued per triggering message, as `process_queue` does it, not one per polling tick.
