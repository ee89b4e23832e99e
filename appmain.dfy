/** main.py: the controller's trigger policy (process_queue) and the
    latest-wins translation worker (_translation_worker). The speech mailbox
    and the translation queue are sequences; the clock reading taken for each
    drained message, the translator's behaviour and the formatted duration
    are inputs. */
module AppMain {
  import opened Wrappers
  import opened PyStrings
  import opened Overlay
  import opened Translator

  // ---------------------------------------------------------------------------
  // Trigger policy (process_queue)
  // ---------------------------------------------------------------------------

  /** One recognition result handed over by the speech service. */
  datatype SpeechMessage = SpeechMessage(text: string, isFinal: bool)

  /** An item of the translation queue: a (text, reason) tuple, or a bare text. */
  datatype QueueItem = Tagged(text: string, reason: string) | Bare(text: string)

  /** The translation settings read at start-up. */
  datatype TriggerConfig = TriggerConfig(triggerThreshold: int, minThreshold: int,
                                         timeout: real, debounce: real)

  /** The configuration defaults: 50 and 20 characters, 2.0 s and 1.0 s. */
  const DefaultTrigger := TriggerConfig(50, 20, 2.0, 1.0)

  const FinalReason: string := "[Final]"
  const LenReason: string := "[Len]"
  const TimeReason: string := "[Time]"

  /** last_translate_time and last_english_text. */
  datatype TriggerState = TriggerState(lastTime: real, lastText: string)

  const InitialTrigger := TriggerState(0.0, "")

  /** The reason a message read at `now` is sent for translation, if it is. */
  function Decide(cfg: TriggerConfig, st: TriggerState, m: SpeechMessage, now: real): (r: Option<string>)
    ensures r.Some? ==> r.value in {FinalReason, LenReason, TimeReason}
    ensures r == Some(FinalReason) <==> m.isFinal && m.text != st.lastText
  {
    if m.text != st.lastText then
      if m.isFinal then Some(FinalReason)
      else
        var isLongEnough := |m.text| >= cfg.triggerThreshold;
        var isTimeout := now - st.lastTime > cfg.timeout;
        var timeSinceLast := now - st.lastTime;
        if isLongEnough then
          if timeSinceLast > cfg.debounce then Some(LenReason) else None
        else if isTimeout && |m.text| >= cfg.minThreshold then Some(TimeReason)
        else None
    else None
  }

  /** A message repeating the last translated text never triggers. */
  lemma DecideDedup(cfg: TriggerConfig, st: TriggerState, m: SpeechMessage, now: real)
    requires m.text == st.lastText
    ensures Decide(cfg, st, m, now) == None
  {
  }

  /** A final message with new text always triggers with "[Final]", whatever
      its length and timing. */
  lemma DecideFinal(cfg: TriggerConfig, st: TriggerState, m: SpeechMessage, now: real)
    requires m.isFinal && m.text != st.lastText
    ensures Decide(cfg, st, m, now) == Some(FinalReason)
  {
  }

  /** A long interim with new text triggers "[Len]" exactly when the debounce
      interval has passed, and otherwise nothing: never "[Time]", never "[Final]". */
  lemma DecideLong(cfg: TriggerConfig, st: TriggerState, m: SpeechMessage, now: real)
    requires !m.isFinal && m.text != st.lastText && |m.text| >= cfg.triggerThreshold
    ensures Decide(cfg, st, m, now) == Some(LenReason) <==> now - st.lastTime > cfg.debounce
    ensures Decide(cfg, st, m, now) != Some(TimeReason)
    ensures Decide(cfg, st, m, now) != Some(FinalReason)
  {
  }

  /** A short interim with new text triggers "[Time]" exactly when the timeout
      has passed and it reaches the minimum length, and otherwise nothing: never
      "[Len]", never "[Final]"; below the minimum length it never triggers. */
  lemma DecideShort(cfg: TriggerConfig, st: TriggerState, m: SpeechMessage, now: real)
    requires !m.isFinal && m.text != st.lastText && |m.text| < cfg.triggerThreshold
    ensures Decide(cfg, st, m, now) == Some(TimeReason) <==>
              now - st.lastTime > cfg.timeout && |m.text| >= cfg.minThreshold
    ensures Decide(cfg, st, m, now) != Some(LenReason)
    ensures Decide(cfg, st, m, now) != Some(FinalReason)
    ensures |m.text| < cfg.minThreshold ==> Decide(cfg, st, m, now) == None
  {
  }

  /** What one drained message does: the new trigger state and the request it
      enqueues, if any. */
  datatype Stepped = Stepped(state: TriggerState, request: Option<QueueItem>)

  function Step(cfg: TriggerConfig, st: TriggerState, m: SpeechMessage, now: real): Stepped {
    match Decide(cfg, st, m, now)
    case None => Stepped(st, None)
    case Some(reason) => Stepped(TriggerState(now, m.text), Some(Tagged(m.text, reason)))
  }

  /** The trigger state changes only when a request is enqueued, and then
      becomes (now, text); the request is the message text with its reason. */
  lemma StepUpdatesOnTrigger(cfg: TriggerConfig, st: TriggerState, m: SpeechMessage, now: real)
    ensures Step(cfg, st, m, now).request.None? <==> Decide(cfg, st, m, now).None?
    ensures Step(cfg, st, m, now).request.None? ==> Step(cfg, st, m, now).state == st
    ensures Step(cfg, st, m, now).request.Some? ==>
              Step(cfg, st, m, now).state == TriggerState(now, m.text)
              && Step(cfg, st, m, now).request.value
                 == Tagged(m.text, Decide(cfg, st, m, now).value)
  {
  }

  /** The effect of draining a run of messages, the i-th read at times[i]. */
  datatype RunResult = RunResult(state: TriggerState, requests: seq<QueueItem>)

  function Emitted(o: Option<QueueItem>): seq<QueueItem> {
    if o.Some? then [o.value] else []
  }

  function Run(cfg: TriggerConfig, st: TriggerState, msgs: seq<SpeechMessage>, times: seq<real>): RunResult
    requires |times| == |msgs|
    decreases |msgs|
  {
    if msgs == [] then RunResult(st, [])
    else
      var n := |msgs| - 1;
      var p := Run(cfg, st, msgs[..n], times[..n]);
      var s := Step(cfg, p.state, msgs[n], times[n]);
      RunResult(s.state, p.requests + Emitted(s.request))
  }

  /** Draining one more message extends the run by one step. */
  lemma RunExtend(cfg: TriggerConfig, st: TriggerState, msgs: seq<SpeechMessage>, times: seq<real>, i: nat)
    requires |times| == |msgs| && i < |msgs|
    ensures var p := Run(cfg, st, msgs[..i], times[..i]);
            var s := Step(cfg, p.state, msgs[i], times[i]);
            Run(cfg, st, msgs[..i + 1], times[..i + 1]) == RunResult(s.state, p.requests + Emitted(s.request))
  {
    assert msgs[..i + 1][..i] == msgs[..i] && times[..i + 1][..i] == times[..i];
  }

  /** Every request of a run is a (text, reason) tuple with one of the three
      reasons, and there are no more requests than messages. */
  lemma {:induction false} RunRequestsTagged(cfg: TriggerConfig, st: TriggerState,
                                             msgs: seq<SpeechMessage>, times: seq<real>)
    requires |times| == |msgs|
    ensures var r := Run(cfg, st, msgs, times);
            |r.requests| <= |msgs|
            && forall i :: 0 <= i < |r.requests| ==>
                 r.requests[i].Tagged? && r.requests[i].reason in {FinalReason, LenReason, TimeReason}
    decreases |msgs|
  {
    if msgs != [] {
      var n := |msgs| - 1;
      RunRequestsTagged(cfg, st, msgs[..n], times[..n]);
    }
  }

  /** After a run the trigger state holds the text of the last request and the
      time of the message i that made it: the run up to and including message i
      already made every request. A run without requests leaves the trigger
      state as it was. */
  lemma RunTracksLastRequest(cfg: TriggerConfig, st: TriggerState,
                             msgs: seq<SpeechMessage>, times: seq<real>)
    requires |times| == |msgs|
    ensures var r := Run(cfg, st, msgs, times);
            (r.requests == [] ==> r.state == st)
            && (r.requests != [] ==> r.state.lastText == r.requests[|r.requests| - 1].text)
            && (r.requests != [] ==>
                  exists i :: 0 <= i < |msgs| && r.state == TriggerState(times[i], msgs[i].text)
                              && Run(cfg, st, msgs[..i + 1], times[..i + 1]).requests == r.requests)
  {
    RunTracksLastText(cfg, st, msgs, times);
    RunLastRequester(cfg, st, msgs, times);
  }

  lemma {:induction false} RunTracksLastText(cfg: TriggerConfig, st: TriggerState,
                                             msgs: seq<SpeechMessage>, times: seq<real>)
    requires |times| == |msgs|
    ensures var r := Run(cfg, st, msgs, times);
            (r.requests == [] ==> r.state == st)
            && (r.requests != [] ==> r.state.lastText == r.requests[|r.requests| - 1].text)
    decreases |msgs|
  {
    if msgs != [] {
      var n := |msgs| - 1;
      RunTracksLastText(cfg, st, msgs[..n], times[..n]);
    }
  }

  /** The message that made the last request of a run of messages. */
  lemma {:induction false} RunLastRequester(cfg: TriggerConfig, st: TriggerState,
                                            msgs: seq<SpeechMessage>, times: seq<real>)
    requires |times| == |msgs|
    ensures var r := Run(cfg, st, msgs, times);
            r.requests != [] ==>
              exists i :: 0 <= i < |msgs| && r.state == TriggerState(times[i], msgs[i].text)
                          && Run(cfg, st, msgs[..i + 1], times[..i + 1]).requests == r.requests
    decreases |msgs|
  {
    if msgs != [] {
      var n := |msgs| - 1;
      var r := Run(cfg, st, msgs, times);
      var p := Run(cfg, st, msgs[..n], times[..n]);
      var s := Step(cfg, p.state, msgs[n], times[n]);
      if s.request.Some? {
        assert msgs[..n + 1] == msgs && times[..n + 1] == times;
        assert r.state == TriggerState(times[n], msgs[n].text);
      } else if p.requests != [] {
        RunLastRequester(cfg, st, msgs[..n], times[..n]);
        var i :| 0 <= i < n && p.state == TriggerState(times[..n][i], msgs[..n][i].text)
                 && Run(cfg, st, msgs[..n][..i + 1], times[..n][..i + 1]).requests == p.requests;
        assert msgs[..n][..i + 1] == msgs[..i + 1] && times[..n][..i + 1] == times[..i + 1];
        assert r == p;
        assert r.state == TriggerState(times[i], msgs[i].text);
      }
    }
  }

  /** No request repeats the text of the one before it, nor, for the first,
      the text translated before the run. */
  lemma {:induction false} RunNeverRepeats(cfg: TriggerConfig, st: TriggerState,
                                           msgs: seq<SpeechMessage>, times: seq<real>)
    requires |times| == |msgs|
    ensures var r := Run(cfg, st, msgs, times);
            (r.requests != [] ==> r.requests[0].text != st.lastText)
            && (forall i :: 0 < i < |r.requests| ==> r.requests[i].text != r.requests[i - 1].text)
    decreases |msgs|
  {
    if msgs != [] {
      var n := |msgs| - 1;
      var p := Run(cfg, st, msgs[..n], times[..n]);
      RunNeverRepeats(cfg, st, msgs[..n], times[..n]);
      RunTracksLastText(cfg, st, msgs[..n], times[..n]);
      var s := Step(cfg, p.state, msgs[n], times[n]);
      if s.request.Some? {
        assert s.request.value.text != p.state.lastText;
        assert Run(cfg, st, msgs, times).requests == p.requests + [s.request.value];
      }
    }
  }

  /** A run of identical interim and final messages with the same text after
      a translation of it enqueues nothing. */
  lemma {:induction false} RunRepeatsNothing(cfg: TriggerConfig, st: TriggerState,
                                             msgs: seq<SpeechMessage>, times: seq<real>)
    requires |times| == |msgs|
    requires forall i :: 0 <= i < |msgs| ==> msgs[i].text == st.lastText
    ensures Run(cfg, st, msgs, times) == RunResult(st, [])
    decreases |msgs|
  {
    if msgs != [] {
      var n := |msgs| - 1;
      RunRepeatsNothing(cfg, st, msgs[..n], times[..n]);
      DecideDedup(cfg, st, msgs[n], times[n]);
    }
  }

  /** A 51-character interim 0.5 s after start-up is held back by the
      debounce; the same text 2.5 s after start-up is sent as "[Len]", and
      its final, extended version at 2.7 s as "[Final]". */
  lemma DebounceScenario()
    ensures var long := "The quick brown fox jumps over the lazy dog, again.";
            |long| == 51
            && Run(DefaultTrigger, InitialTrigger,
                   [SpeechMessage(long, false), SpeechMessage(long, false), SpeechMessage(long + "!", true)],
                   [0.5, 2.5, 2.7]).requests
               == [Tagged(long, LenReason), Tagged(long + "!", FinalReason)]
  {
    var long := "The quick brown fox jumps over the lazy dog, again.";
    var msgs := [SpeechMessage(long, false), SpeechMessage(long, false), SpeechMessage(long + "!", true)];
    var times := [0.5, 2.5, 2.7];
    assert msgs[..0] == [] && times[..0] == [];
    assert Decide(DefaultTrigger, InitialTrigger, msgs[0], 0.5) == None;
    RunExtend(DefaultTrigger, InitialTrigger, msgs, times, 0);
    var r1 := Run(DefaultTrigger, InitialTrigger, msgs[..1], times[..1]);
    assert r1 == RunResult(InitialTrigger, []);
    assert Decide(DefaultTrigger, InitialTrigger, msgs[1], 2.5) == Some(LenReason);
    RunExtend(DefaultTrigger, InitialTrigger, msgs, times, 1);
    var r2 := Run(DefaultTrigger, InitialTrigger, msgs[..2], times[..2]);
    assert r2 == RunResult(TriggerState(2.5, long), [Tagged(long, LenReason)]);
    RunExtend(DefaultTrigger, InitialTrigger, msgs, times, 2);
    assert msgs[..3] == msgs && times[..3] == times;
  }

  /** The English texts shown for a run of messages, in order. */
  function Texts(msgs: seq<SpeechMessage>): (r: seq<string>)
    ensures |r| == |msgs| && forall i :: 0 <= i < |msgs| ==> r[i] == msgs[i].text
  {
    seq(|msgs|, i requires 0 <= i < |msgs| => msgs[i].text)
  }

  lemma TextsExtend(msgs: seq<SpeechMessage>, i: nat)
    requires i < |msgs|
    ensures Texts(msgs[..i + 1]) == Texts(msgs[..i]) + [msgs[i].text]
  {
  }

  // ---------------------------------------------------------------------------
  // Latest-wins worker (_translation_worker)
  // ---------------------------------------------------------------------------

  /** The (text, reason) of a queue item; a bare text has reason "". */
  function Unpack(item: QueueItem): (string, string) {
    match item
    case Tagged(t, r) => (t, r)
    case Bare(t) => (t, "")
  }

  /** The worker's drain: take the first item, then every remaining one,
      keeping only the last and counting the ones it replaced. */
  method DrainLatest(queue: seq<QueueItem>) returns (text: string, reason: string, skipped: nat)
    requires |queue| >= 1
    ensures (text, reason) == Unpack(queue[|queue| - 1])
    ensures skipped == |queue| - 1
  {
    var item := queue[0];
    text, reason := Unpack(item).0, Unpack(item).1;
    skipped := 0;
    var rest := queue[1..];
    while rest != []
      invariant |rest| < |queue| && rest == queue[|queue| - |rest|..]
      invariant skipped == |queue| - 1 - |rest|
      invariant (text, reason) == Unpack(queue[|queue| - |rest| - 1])
      decreases |rest|
    {
      item := rest[0];
      rest := rest[1..];
      text, reason := Unpack(item).0, Unpack(item).1;
      skipped := skipped + 1;
    }
  }

  /** The update the worker schedules on the overlay: display text, source
      text and finality. */
  datatype UiUpdate = UiUpdate(display: string, source: string, isFinal: bool)

  /** f"{zh_text} {reason} (耗时{duration:.2f}s)", with the formatted duration given. */
  function DisplayText(zh: string, reason: string, duration: string): string {
    zh + " " + reason + TimingMarker + duration + "s)"
  }

  /** One pass of the worker after the drain: nothing for an empty text or
      before the translator is loaded; otherwise the translation and the
      overlay update built from it. */
  function WorkerOutput(text: string, reason: string, translatorReady: bool,
                        engine: EngineOutcome, duration: string): (r: Option<UiUpdate>)
    ensures r.None? <==> text == "" || !translatorReady
    ensures r.Some? ==> r.value.source == text
  {
    if text != "" && translatorReady then
      var zh := Translate(text, engine);
      Some(UiUpdate(DisplayText(zh, reason, duration), text, Contains(reason, FinalReason)))
    else None
  }

  /** For every reason the controller or a bare item can give, the update is
      final exactly for "[Final]". */
  lemma WorkerFinality(text: string, reason: string, ready: bool, engine: EngineOutcome, duration: string)
    requires reason in {FinalReason, LenReason, TimeReason, ""}
    requires WorkerOutput(text, reason, ready, engine, duration).Some?
    ensures WorkerOutput(text, reason, ready, engine, duration).value.isFinal <==> reason == FinalReason
  {
    assert OccursAt(FinalReason, FinalReason, 0);
  }

  /** The display text of a marker-free translation cleans back to the
      stripped translation: the text the overlay later archives for it. */
  lemma DisplayTextCleans(zh: string, reason: string, duration: string)
    requires MarkerFree(zh)
    requires reason in {FinalReason, LenReason, TimeReason, ""}
    ensures CleanText(DisplayText(zh, reason, duration)) == Strip(zh)
  {
    if reason == "" {
      DisplayCleansWith(zh, reason, duration, zh + " ");
      TagCutsBlank(zh);
    } else if reason == FinalReason {
      DisplayCleansWith(zh, reason, duration, zh + FinalMarker);
      TagCutsFinal(zh);
    } else if reason == LenReason {
      DisplayCleansWith(zh, reason, duration, zh + LenMarker);
      TagCutsLen(zh);
    } else {
      DisplayCleansWith(zh, reason, duration, zh + TimeMarker);
      TagCutsTime(zh);
    }
  }

  /** The clean text of a display text, from its tagged part. */
  lemma DisplayCleansWith(zh: string, reason: string, duration: string, tagged: string)
    requires MarkerFree(zh) && '(' !in reason && tagged == zh + " " + reason
    ensures CleanText(DisplayText(zh, reason, duration))
            == Strip(SplitHead(SplitHead(SplitHead(tagged, FinalMarker), LenMarker), TimeMarker))
  {
    DisplayCut(zh, reason, duration);
    CleanTextAfterTimingCut(DisplayText(zh, reason, duration), tagged);
  }

  /** The clean text of a line, from its cut at the timing annotation. */
  lemma CleanTextAfterTimingCut(s: string, c1: string)
    requires SplitHead(s, TimingMarker) == c1
    ensures CleanText(s) == Strip(SplitHead(SplitHead(SplitHead(c1, FinalMarker), LenMarker), TimeMarker))
  {
  }

  /** The display text cut at its timing annotation. */
  lemma DisplayCut(zh: string, reason: string, duration: string)
    requires MarkerFree(zh) && '(' !in reason
    ensures SplitHead(DisplayText(zh, reason, duration), TimingMarker) == zh + " " + reason
  {
    var tag := " " + reason;
    assert DisplayText(zh, reason, duration) == zh + tag + TimingMarker + duration + "s)";
    TimingCut(zh, tag, duration);
    assert zh + tag == zh + " " + reason;
  }

  /** The cut at the timing annotation leaves the translation and its tag. */
  lemma TimingCut(zh: string, tag: string, duration: string)
    requires MarkerFree(zh) && tag != [] && tag[0] == ' ' && '(' !in tag
    ensures SplitHead(zh + tag + TimingMarker + duration + "s)", TimingMarker) == zh + tag
  {
    var tail := TimingMarker + duration + "s)";
    SplitHeadAtStart(tail, TimingMarker);
    assert zh + tag + TimingMarker + duration + "s)" == zh + (tag + tail);
    assert (tag + tail)[0] == ' ' && tail[0] == ' ';
    CharAbsent(tag, TimingMarker, '(');
    SplitHeadAfterFree(zh, tag + tail, TimingMarker);
    SplitHeadAfterFree(tag, tail, TimingMarker);
    assert tag + [] == tag;
  }

  /** The three reason cuts of a marker-free text followed by one space. */
  lemma TagCutsBlank(zh: string)
    requires MarkerFree(zh)
    ensures Strip(SplitHead(SplitHead(SplitHead(zh + " ", FinalMarker), LenMarker), TimeMarker)) == Strip(zh)
  {
    SplitHeadAfterFree(zh, " ", FinalMarker);
    SplitHeadFree(" ", FinalMarker);
    SplitHeadAfterFree(zh, " ", LenMarker);
    SplitHeadFree(" ", LenMarker);
    SplitHeadAfterFree(zh, " ", TimeMarker);
    SplitHeadFree(" ", TimeMarker);
    StripTrailingSpace(zh);
  }

  lemma TagCutsFinal(zh: string)
    requires MarkerFree(zh)
    ensures Strip(SplitHead(SplitHead(SplitHead(zh + FinalMarker, FinalMarker), LenMarker), TimeMarker)) == Strip(zh)
  {
    SplitHeadAfterFree(zh, FinalMarker, FinalMarker);
    SplitHeadAtStart(FinalMarker, FinalMarker);
    assert zh + [] == zh;
    SplitHeadFree(zh, LenMarker);
    SplitHeadFree(zh, TimeMarker);
  }

  lemma TagCutsLen(zh: string)
    requires MarkerFree(zh)
    ensures Strip(SplitHead(SplitHead(SplitHead(zh + LenMarker, FinalMarker), LenMarker), TimeMarker)) == Strip(zh)
  {
    SplitHeadAfterFree(zh, LenMarker, FinalMarker);
    SplitHeadFree(LenMarker, FinalMarker);
    SplitHeadAfterFree(zh, LenMarker, LenMarker);
    SplitHeadAtStart(LenMarker, LenMarker);
    assert zh + [] == zh;
    SplitHeadFree(zh, TimeMarker);
  }

  lemma TagCutsTime(zh: string)
    requires MarkerFree(zh)
    ensures Strip(SplitHead(SplitHead(SplitHead(zh + TimeMarker, FinalMarker), LenMarker), TimeMarker)) == Strip(zh)
  {
    SplitHeadAfterFree(zh, TimeMarker, FinalMarker);
    SplitHeadFree(TimeMarker, FinalMarker);
    SplitHeadAfterFree(zh, TimeMarker, LenMarker);
    CharAbsent(TimeMarker, LenMarker, 'L');
    SplitHeadFree(TimeMarker, LenMarker);
    SplitHeadAfterFree(zh, TimeMarker, TimeMarker);
    SplitHeadAtStart(TimeMarker, TimeMarker);
    assert zh + [] == zh;
  }

  /** A failed translation reaches the overlay as a line starting with "[Err",
      so it never causes the line before it to be archived. */
  lemma WorkerErrorNotArchived(text: string, reason: string, message: string, duration: string,
                               lastZh: string, lastIsFinal: bool)
    requires text != "" && !IsBlank(text)
    ensures WorkerOutput(text, reason, true, Raised(message), duration).Some?
    ensures !Archives(lastZh, lastIsFinal, WorkerOutput(text, reason, true, Raised(message), duration).value.display)
  {
    var marker := ErrorMarker(message);
    ErrorMarkerShape(message);
    var d := DisplayText(marker, reason, duration);
    assert d[..4] == marker[..4];
  }

  // ---------------------------------------------------------------------------
  // AppController
  // ---------------------------------------------------------------------------

  /** The controller's trigger fields and its two queues. The overlay calls
      made by process_queue are recorded in `englishShown`, one per message. */
  class AppController {
    const cfg: TriggerConfig
    var lastTranslateTime: real
    var lastEnglishText: string
    var msgQueue: seq<SpeechMessage>
    var transQueue: seq<QueueItem>
    var englishShown: seq<string>

    function State(): TriggerState
      reads this
    {
      TriggerState(lastTranslateTime, lastEnglishText)
    }

    constructor (config: TriggerConfig)
      ensures cfg == config && State() == InitialTrigger
      ensures msgQueue == [] && transQueue == [] && englishShown == []
    {
      cfg := config;
      lastTranslateTime := 0.0;
      lastEnglishText := "";
      msgQueue := [];
      transQueue := [];
      englishShown := [];
    }

    /** on_speech_result: the message joins the mailbox. */
    method OnSpeechResult(text: string, isFinal: bool)
      modifies this
      ensures msgQueue == old(msgQueue) + [SpeechMessage(text, isFinal)]
      ensures State() == old(State()) && transQueue == old(transQueue)
      ensures englishShown == old(englishShown)
    {
      msgQueue := msgQueue + [SpeechMessage(text, isFinal)];
    }

    /** process_queue: drain the mailbox in order, the i-th message read at
        times[i]; each shows its English text, and those that trigger enqueue
        a request and move the trigger state. */
    method ProcessQueue(times: seq<real>)
      requires |times| == |msgQueue|
      modifies this
      ensures msgQueue == []
      ensures englishShown == old(englishShown) + Texts(old(msgQueue))
      ensures State() == Run(cfg, old(State()), old(msgQueue), times).state
      ensures transQueue == old(transQueue) + Run(cfg, old(State()), old(msgQueue), times).requests
    {
      ghost var msgs := msgQueue;
      ghost var st0 := State();
      ghost var q0 := transQueue;
      ghost var shown0 := englishShown;
      var i := 0;
      while msgQueue != []
        invariant 0 <= i <= |msgs| && msgQueue == msgs[i..]
        invariant englishShown == shown0 + Texts(msgs[..i])
        invariant State() == Run(cfg, st0, msgs[..i], times[..i]).state
        invariant transQueue == q0 + Run(cfg, st0, msgs[..i], times[..i]).requests
        decreases |msgQueue|
      {
        var msg := msgQueue[0];
        msgQueue := msgQueue[1..];
        HandleMessage(msg, times[i]);
        RunExtend(cfg, st0, msgs, times, i);
        TextsExtend(msgs, i);
        i := i + 1;
      }
      assert msgs[..i] == msgs && times[..i] == times;
    }

    /** The body of process_queue's loop for one message read at currentTime:
        show its English text, and enqueue it when it triggers. */
    method HandleMessage(msg: SpeechMessage, currentTime: real)
      modifies this
      ensures englishShown == old(englishShown) + [msg.text] && msgQueue == old(msgQueue)
      ensures State() == Step(cfg, old(State()), msg, currentTime).state
      ensures transQueue == old(transQueue) + Emitted(Step(cfg, old(State()), msg, currentTime).request)
    {
      englishShown := englishShown + [msg.text];
      var reason := Decide(cfg, State(), msg, currentTime);
      if reason.Some? {
        transQueue := transQueue + [Tagged(msg.text, reason.value)];
        lastTranslateTime := currentTime;
        lastEnglishText := msg.text;
      }
    }

    /** The worker's wake-up: the whole translation queue is consumed and the
        last item is the one to translate. */
    method TakeLatest() returns (text: string, reason: string, skipped: nat)
      requires transQueue != []
      modifies this
      ensures transQueue == []
      ensures (text, reason) == Unpack(old(transQueue)[|old(transQueue)| - 1])
      ensures skipped == |old(transQueue)| - 1
      ensures State() == old(State()) && msgQueue == old(msgQueue) && englishShown == old(englishShown)
    {
      text, reason, skipped := DrainLatest(transQueue);
      transQueue := [];
    }
  }
}
