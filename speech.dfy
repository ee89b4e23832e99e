/** speech_service.py: the browser page's recognition.onresult handler (the
    JavaScript embedded in HTML_TEMPLATE_BODY), the WebSocket handler's
    dispatch of decoded messages, and the choice of Chrome's proxy argument.
    The browser, the servers and JSON decoding are not modelled. */
module Speech {
  import opened Wrappers
  import opened PyStrings
  import opened Settings

  // ---------------------------------------------------------------------------
  // recognition.onresult
  // ---------------------------------------------------------------------------

  /** event.results[i]: its best transcript and whether it is final. */
  datatype RecognitionResult = RecognitionResult(transcript: string, isFinal: bool)

  /** A message the page sends: {"text": ..., "is_final": ...}. */
  datatype Outgoing = Outgoing(text: string, isFinal: bool)

  /** The finals met so far, in order, and the interim text gathered since
      the last of them. */
  datatype Aggregate = Aggregate(finals: seq<Outgoing>, interim: string)

  /** The loop of onresult over a run of results. */
  function Aggregated(rs: seq<RecognitionResult>): Aggregate
    decreases |rs|
  {
    if rs == [] then Aggregate([], "")
    else
      var a := Aggregated(rs[..|rs| - 1]);
      var r := rs[|rs| - 1];
      if r.isFinal then Aggregate(a.finals + [Outgoing(r.transcript, true)], "")
      else Aggregate(a.finals, a.interim + r.transcript)
  }

  /** The results an event examines: those from resultIndex on. */
  function Examined(results: seq<RecognitionResult>, resultIndex: nat): seq<RecognitionResult> {
    if resultIndex <= |results| then results[resultIndex..] else []
  }

  /** The messages sent for one event when the socket is open: every final
      in order, then the gathered interim text if it is not empty. */
  function EventMessages(results: seq<RecognitionResult>, resultIndex: nat, wsOpen: bool): seq<Outgoing> {
    if !wsOpen then []
    else
      var a := Aggregated(Examined(results, resultIndex));
      a.finals + (if |a.interim| > 0 then [Outgoing(a.interim, false)] else [])
  }

  /** recognition.onresult(event), returning what it sends on the socket. */
  method OnResult(results: seq<RecognitionResult>, resultIndex: nat, wsOpen: bool)
    returns (sent: seq<Outgoing>)
    ensures sent == EventMessages(results, resultIndex, wsOpen)
  {
    ghost var examined := Examined(results, resultIndex);
    var combinedInterim := "";
    sent := [];
    var i := resultIndex;
    while i < |results|
      invariant resultIndex <= |results| ==> resultIndex <= i <= |results|
      invariant resultIndex > |results| ==> i == resultIndex
      invariant var a := Aggregated(if i <= |results| then results[resultIndex..i] else []);
                combinedInterim == a.interim && sent == (if wsOpen then a.finals else [])
      decreases |results| - i
    {
      var transcript := results[i].transcript;
      var isFinal := results[i].isFinal;
      assert results[resultIndex..i + 1][..i - resultIndex] == results[resultIndex..i];
      if isFinal {
        if wsOpen {
          sent := sent + [Outgoing(transcript, true)];
        }
        combinedInterim := "";
      } else {
        combinedInterim := combinedInterim + transcript;
      }
      i := i + 1;
    }
    assert resultIndex <= |results| ==> results[resultIndex..i] == examined;
    if |combinedInterim| > 0 {
      if wsOpen {
        sent := sent + [Outgoing(combinedInterim, false)];
      }
    }
  }

  /** The finals of a run of results, filtered front to back. */
  function FinalsOf(rs: seq<RecognitionResult>): seq<Outgoing>
    decreases |rs|
  {
    if rs == [] then []
    else (if rs[0].isFinal then [Outgoing(rs[0].transcript, true)] else []) + FinalsOf(rs[1..])
  }

  /** The transcripts of a run of results, joined front to back. */
  function Joined(rs: seq<RecognitionResult>): string
    decreases |rs|
  {
    if rs == [] then "" else rs[0].transcript + Joined(rs[1..])
  }

  /** Where the trailing run of interim results starts: just after the last
      final, or at 0 when there is none. */
  function AfterLastFinal(rs: seq<RecognitionResult>): (k: nat)
    ensures k <= |rs|
    ensures k > 0 ==> rs[k - 1].isFinal
    ensures forall j :: k <= j < |rs| ==> !rs[j].isFinal
    decreases |rs|
  {
    if rs == [] then 0
    else if rs[|rs| - 1].isFinal then |rs|
    else AfterLastFinal(rs[..|rs| - 1])
  }

  lemma {:induction false} FinalsOfSnoc(rs: seq<RecognitionResult>, r: RecognitionResult)
    ensures FinalsOf(rs + [r]) == FinalsOf(rs) + (if r.isFinal then [Outgoing(r.transcript, true)] else [])
    decreases |rs|
  {
    if rs != [] {
      assert (rs + [r])[1..] == rs[1..] + [r];
      FinalsOfSnoc(rs[1..], r);
    } else {
      assert [r][1..] == [];
    }
  }

  lemma {:induction false} JoinedSnoc(rs: seq<RecognitionResult>, r: RecognitionResult)
    ensures Joined(rs + [r]) == Joined(rs) + r.transcript
    decreases |rs|
  {
    if rs != [] {
      assert (rs + [r])[1..] == rs[1..] + [r];
      JoinedSnoc(rs[1..], r);
    } else {
      assert [r][1..] == [];
    }
  }

  /** The handler's aggregation agrees with the front-to-back reading: the
      finals are every final result in order, and the interim text is the
      join of the interim results after the last final (so the interims
      before a final are never sent). */
  lemma {:induction false} AggregatedMeaning(rs: seq<RecognitionResult>)
    ensures Aggregated(rs).finals == FinalsOf(rs)
    ensures Aggregated(rs).interim == Joined(rs[AfterLastFinal(rs)..])
    decreases |rs|
  {
    if rs != [] {
      var n := |rs| - 1;
      var init := rs[..n];
      assert rs == init + [rs[n]];
      AggregatedMeaning(init);
      FinalsOfSnoc(init, rs[n]);
      if !rs[n].isFinal {
        var k := AfterLastFinal(init);
        assert rs[k..] == init[k..] + [rs[n]];
        JoinedSnoc(init[k..], rs[n]);
      } else {
        assert rs[|rs|..] == [];
      }
    }
  }

  /** An event sends at most one interim message, and only as its last. */
  lemma EventInterimLast(results: seq<RecognitionResult>, resultIndex: nat, wsOpen: bool)
    ensures var ms := EventMessages(results, resultIndex, wsOpen);
            forall j :: 0 <= j < |ms| - 1 ==> ms[j].isFinal
  {
    var a := Aggregated(Examined(results, resultIndex));
    AggregatedFinalsAreFinal(Examined(results, resultIndex));
  }

  lemma {:induction false} AggregatedFinalsAreFinal(rs: seq<RecognitionResult>)
    ensures forall j :: 0 <= j < |Aggregated(rs).finals| ==> Aggregated(rs).finals[j].isFinal
    decreases |rs|
  {
    if rs != [] {
      AggregatedFinalsAreFinal(rs[..|rs| - 1]);
    }
  }

  // ---------------------------------------------------------------------------
  // WebSocket handler
  // ---------------------------------------------------------------------------

  /** A decoded message: the keys "type", "state", "message", "text" and
      "is_final", each possibly missing. */
  datatype Incoming = Incoming(msgType: Option<string>, state: Option<string>, message: Option<string>,
                               text: Option<string>, isFinal: Option<bool>)

  /** What the handler does with one message. Abort is the KeyError raised
      for a status message without "state", which ends the connection. */
  datatype Action = NotifyStatus(status: string) | Deliver(text: string, isFinal: bool) | Ignore | Abort

  /** The branch of the handler's loop body taken for one message. */
  function Dispatch(m: Incoming, hasStatusCallback: bool): Action {
    if m.msgType.Some? then
      if m.msgType.value == "status" && hasStatusCallback then
        if m.state.Some? then NotifyStatus(m.state.value) else Abort
      else if m.msgType.value == "error" then
        if hasStatusCallback then NotifyStatus("Error: " + m.message.GetOr("Unknown Error")) else Ignore
      else Ignore
    else Deliver(m.text.GetOr(""), m.isFinal.GetOr(false))
  }

  /** The dispatch rules: typed messages never reach the result callback;
      a status with a callback reports its state, and the connection is
      aborted exactly when such a status has no state; an error reports its
      message, or "Unknown Error"; other types are ignored; an untyped
      message is delivered with "" and false for missing keys. */
  lemma DispatchRules(m: Incoming, h: bool)
    ensures m.msgType.Some? ==> !Dispatch(m, h).Deliver?
    ensures m.msgType == Some("status") && h && m.state.Some? ==>
              Dispatch(m, h) == NotifyStatus(m.state.value)
    ensures m.msgType == Some("error") && h ==>
              Dispatch(m, h) == NotifyStatus("Error: " + (if m.message.Some? then m.message.value else "Unknown Error"))
    ensures Dispatch(m, h) == Abort <==> m.msgType == Some("status") && h && m.state.None?
    ensures !h ==> !Dispatch(m, h).NotifyStatus? && !Dispatch(m, h).Abort?
    ensures m.msgType.Some? && m.msgType.value != "status" && m.msgType.value != "error" ==>
              Dispatch(m, h) == Ignore
    ensures m.msgType.None? ==>
              Dispatch(m, h) == Deliver(if m.text.Some? then m.text.value else "",
                                        m.isFinal.Some? && m.isFinal.value)
  {
  }

  /** A call the handler makes: status_callback(s) or callback(text, is_final). */
  datatype Effect = StatusReport(status: string) | SpeechResult(text: string, isFinal: bool)

  function ActionEffects(a: Action): seq<Effect> {
    match a
    case NotifyStatus(s) => [StatusReport(s)]
    case Deliver(t, f) => [SpeechResult(t, f)]
    case Ignore => []
    case Abort => []
  }

  /** The calls made for the messages of one connection, in order, stopping at
      the first message that aborts it. */
  function Serve(msgs: seq<Incoming>, h: bool): seq<Effect>
    decreases |msgs|
  {
    if msgs == [] then []
    else if Dispatch(msgs[0], h) == Abort then []
    else ActionEffects(Dispatch(msgs[0], h)) + Serve(msgs[1..], h)
  }

  /** handler(websocket) over the decoded messages of one connection. */
  method Handler(msgs: seq<Incoming>, hasStatusCallback: bool) returns (effects: seq<Effect>)
    ensures effects == Serve(msgs, hasStatusCallback)
  {
    effects := [];
    var i := 0;
    while i < |msgs|
      invariant 0 <= i <= |msgs|
      invariant effects + Serve(msgs[i..], hasStatusCallback) == Serve(msgs, hasStatusCallback)
      decreases |msgs| - i
    {
      var action := Dispatch(msgs[i], hasStatusCallback);
      ServeAt(msgs, i, hasStatusCallback);
      if action.Abort? {
        return;
      }
      effects := effects + ActionEffects(action);
      i := i + 1;
    }
  }

  /** Serving from message i on: stop if it aborts, else its calls and the rest. */
  lemma ServeAt(msgs: seq<Incoming>, i: nat, h: bool)
    requires i < |msgs|
    ensures Dispatch(msgs[i], h) == Abort ==> Serve(msgs[i..], h) == []
    ensures Dispatch(msgs[i], h) != Abort ==>
              Serve(msgs[i..], h) == ActionEffects(Dispatch(msgs[i], h)) + Serve(msgs[i + 1..], h)
  {
    assert msgs[i..][0] == msgs[i];
    assert msgs[i..][1..] == msgs[i + 1..];
  }

  /** The page's result message as the handler decodes it. */
  function Decoded(o: Outgoing): Incoming {
    Incoming(None, None, None, Some(o.text), Some(o.isFinal))
  }

  function DecodedAll(os: seq<Outgoing>): (r: seq<Incoming>)
    ensures |r| == |os| && forall i :: 0 <= i < |os| ==> r[i] == Decoded(os[i])
  {
    seq(|os|, i requires 0 <= i < |os| => Decoded(os[i]))
  }

  function ResultsOf(os: seq<Outgoing>): (r: seq<Effect>)
    ensures |r| == |os| && forall i :: 0 <= i < |os| ==> r[i] == SpeechResult(os[i].text, os[i].isFinal)
  {
    seq(|os|, i requires 0 <= i < |os| => SpeechResult(os[i].text, os[i].isFinal))
  }

  /** Round trip: the messages the page sends reach the result callback
      unchanged and in order, with or without a status callback. */
  lemma {:induction false} ServeDeliversResults(os: seq<Outgoing>, h: bool)
    ensures Serve(DecodedAll(os), h) == ResultsOf(os)
    decreases |os|
  {
    if os != [] {
      assert DecodedAll(os)[1..] == DecodedAll(os[1..]);
      ServeDeliversResults(os[1..], h);
      assert ResultsOf(os) == [SpeechResult(os[0].text, os[0].isFinal)] + ResultsOf(os[1..]);
    }
  }

  /** A message that aborts the connection hides everything after it. */
  lemma {:induction false} ServeStopsAtAbort(msgs: seq<Incoming>, h: bool, k: nat)
    requires k < |msgs| && Dispatch(msgs[k], h) == Abort
    ensures Serve(msgs, h) == Serve(msgs[..k], h)
    decreases k
  {
    if k > 0 {
      assert msgs[1..][..k - 1] == msgs[..k][1..];
      ServeStopsAtAbort(msgs[1..], h, k - 1);
    }
  }

  // ---------------------------------------------------------------------------
  // Chrome proxy argument (_run_driver)
  // ---------------------------------------------------------------------------

  /** proxy.http with "http://" and then "https://" removed wherever they occur. */
  function HttpAddress(cfg: ProxyConfig): string {
    ReplaceAll(ReplaceAll(cfg.http.GetOr(""), "http://", ""), "https://", "")
  }

  /** proxy.socks5 with "socks5://" removed wherever it occurs. */
  function Socks5Address(cfg: ProxyConfig): string {
    ReplaceAll(cfg.socks5.GetOr(""), "socks5://", "")
  }

  /** The --proxy-server argument Chrome is started with, if any. */
  function ChromeProxyArg(cfg: ProxyConfig): Option<string> {
    if !cfg.enabled then None
    else
      var httpAddr := HttpAddress(cfg);
      var socks5Addr := Socks5Address(cfg);
      if httpAddr != "" then Some("--proxy-server=" + httpAddr)
      else if socks5Addr != "" then Some("--proxy-server=socks5://" + socks5Addr)
      else None
  }

  /** No argument when the proxy is disabled; an HTTP address takes priority
      over SOCKS5; a SOCKS5 address is given with an explicit socks5://
      scheme; with neither address there is no argument. */
  lemma ChromeProxyRules(cfg: ProxyConfig)
    ensures !cfg.enabled ==> ChromeProxyArg(cfg) == None
    ensures cfg.enabled && HttpAddress(cfg) != "" ==>
              ChromeProxyArg(cfg) == Some("--proxy-server=" + HttpAddress(cfg))
    ensures cfg.enabled && HttpAddress(cfg) == "" && Socks5Address(cfg) != "" ==>
              ChromeProxyArg(cfg) == Some("--proxy-server=socks5://" + Socks5Address(cfg))
              && StartsWith(ChromeProxyArg(cfg).value, "--proxy-server=socks5://")
    ensures cfg.enabled && HttpAddress(cfg) == "" && Socks5Address(cfg) == "" ==>
              ChromeProxyArg(cfg) == None
  {
    if cfg.enabled && HttpAddress(cfg) == "" && Socks5Address(cfg) != "" {
      var arg := "--proxy-server=socks5://" + Socks5Address(cfg);
      assert arg[..|"--proxy-server=socks5://"|] == "--proxy-server=socks5://";
    }
  }

  /** An http setting "http://host:port" or "https://host:port", or a bare
      "host:port", gives the argument --proxy-server=host:port. */
  lemma ChromeHttpSchemeStripped(cfg: ProxyConfig, addr: string)
    requires cfg.enabled && addr != ""
    requires !Contains(addr, "http://") && !Contains(addr, "https://")
    requires cfg.http == Some(addr) || cfg.http == Some("http://" + addr) || cfg.http == Some("https://" + addr)
    ensures ChromeProxyArg(cfg) == Some("--proxy-server=" + addr)
  {
    ReplaceAllAbsent(addr, "https://", "");
    if cfg.http == Some("http://" + addr) {
      ReplaceAllLeading("http://", addr, "");
      ReplaceAllAbsent(addr, "http://", "");
      assert ReplaceAll("http://" + addr, "http://", "") == addr;
    } else if cfg.http == Some("https://" + addr) {
      HttpsHasNoHttp(addr);
      ReplaceAllAbsent("https://" + addr, "http://", "");
      ReplaceAllLeading("https://", addr, "");
      assert ReplaceAll("https://" + addr, "https://", "") == addr;
    } else {
      ReplaceAllAbsent(addr, "http://", "");
    }
    assert HttpAddress(cfg) == addr;
  }

  /** "https://" followed by a text without "http://" holds no "http://". */
  lemma HttpsHasNoHttp(addr: string)
    requires !Contains(addr, "http://")
    ensures !Contains("https://" + addr, "http://")
  {
    var s := "https://" + addr;
    forall i | 0 <= i <= |s| - 7 ensures !OccursAt(s, "http://", i) {
      if i >= 8 {
        ShiftOccurs("https://", addr, "http://", i);
      } else if i == 0 {
        assert s[0..7][4] == s[4] == 's';
      } else {
        assert s[i..i + 7][0] == s[i] != 'h';
      }
    }
  }

  /** A socks5 setting with or without its scheme gives --proxy-server=socks5://host:port
      when there is no HTTP address. */
  lemma ChromeSocksSchemeStripped(cfg: ProxyConfig, addr: string)
    requires cfg.enabled && addr != "" && HttpAddress(cfg) == ""
    requires !Contains(addr, "socks5://")
    requires cfg.socks5 == Some(addr) || cfg.socks5 == Some("socks5://" + addr)
    ensures ChromeProxyArg(cfg) == Some("--proxy-server=socks5://" + addr)
  {
    ReplaceAllAbsent(addr, "socks5://", "");
    if cfg.socks5 == Some("socks5://" + addr) {
      ReplaceAllLeading("socks5://", addr, "");
    }
    assert Socks5Address(cfg) == addr;
  }
}
