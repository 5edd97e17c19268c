/** The answer stream of `backend/routers/chat.py` (`async_stream_generator`):
    it walks the agent's event stream, forwards visible model tokens at once,
    announces document-analysing tools, and saves the turn to the session's
    history only when it finished without an exception and produced
    non-blank text.

    The agent itself (LLM, tools, iteration cap) is opaque: the turn is
    given the sequence of events the agent would produce. An exception
    raised while iterating is the event `Raise(msg)`, and the client
    closing the connection is the event `Disconnect`; nothing after either
    is consumed. */
module ChatStream {
  import opened Wrappers
  import opened Text

  /** The event kinds the loop distinguishes (`on_chat_model_stream`,
      `on_tool_start`), every other kind, an exception, and the client
      going away. A disconnect surfaces at the generator's pending `yield`
      or `await` as `GeneratorExit` or `CancelledError`; neither is an
      `Exception`, so the `except` clause does not see it. Between two
      yields nothing is observable, so placing it at any point of the
      stream loses nothing. */
  datatype Event =
    | ModelChunk(tags: seq<string>, hasToolCallChunks: bool, author: Option<string>, content: string)
    | ToolStart(name: string)
    | OtherEvent(kind: string)
    | Raise(msg: string)
    | Disconnect

  /** An event that ends the loop. */
  predicate Stops(e: Event) {
    e.Raise? || e.Disconnect?
  }

  /** What leaves the generator when the client goes away. */
  const DISCONNECTED: string := "client disconnected"

  /** What the generator yields, before rendering to text. */
  datatype Emission = Token(text: string) | AnalyzingMarker | SystemError(msg: string)

  const ANALYZING_MARKER: string := "\n\n*Analyzing document...*\n\n"

  function Render(e: Emission): string {
    match e
    case Token(t) => t
    case AnalyzingMarker => ANALYZING_MARKER
    case SystemError(m) => "\n[System Error]: " + m
  }

  /** A write to the session's chat history. */
  datatype HistoryWrite = UserMessage(text: string) | AiMessage(text: string)

  /** A model chunk the loop skips: tagged as internal retrieval, carrying
      tool-call fragments, or authored by the document-search tool. */
  predicate Hidden(e: Event) {
    e.ModelChunk? && ("internal_retrieval" in e.tags || e.hasToolCallChunks || e.author == Some("rag_search_tool"))
  }

  /** The tools whose start is announced to the user. */
  predicate Announced(name: string) {
    name == "rag_search_tool" || name == "compliance_check_tool"
  }

  /** A model chunk whose content reaches the user and the saved answer. */
  predicate Visible(e: Event) {
    e.ModelChunk? && !Hidden(e) && e.content != ""
  }

  // ---------------------------------------------------------------------------
  // Reference definitions
  // ---------------------------------------------------------------------------

  /** What one event contributes to the output stream. */
  function EmissionsOf(e: Event): seq<Emission> {
    if Visible(e) then [Token(e.content)]
    else if e.ToolStart? && Announced(e.name) then [AnalyzingMarker]
    else []
  }

  function Emissions(es: seq<Event>): seq<Emission> {
    if |es| == 0 then [] else Emissions(es[..|es| - 1]) + EmissionsOf(es[|es| - 1])
  }

  /** The contents of the visible chunks, in arrival order. */
  function VisibleContents(es: seq<Event>): seq<string> {
    if |es| == 0 then []
    else VisibleContents(es[..|es| - 1]) + (if Visible(es[|es| - 1]) then [es[|es| - 1].content] else [])
  }

  function Concat(ss: seq<string>): string {
    if |ss| == 0 then "" else Concat(ss[..|ss| - 1]) + ss[|ss| - 1]
  }

  /** The answer text the turn accumulates. */
  function Accumulated(es: seq<Event>): string {
    Concat(VisibleContents(es))
  }

  /** Index of the first exception or disconnect, or `|es|` when there is
      none. */
  function FirstStop(es: seq<Event>): (k: nat)
    ensures k <= |es|
    ensures forall j :: 0 <= j < k ==> !Stops(es[j])
    ensures k < |es| ==> Stops(es[k])
  {
    if |es| == 0 then 0 else if Stops(es[0]) then 0 else 1 + FirstStop(es[1..])
  }

  /** The events the loop actually consumes. */
  function Consumed(es: seq<Event>): seq<Event> {
    es[..FirstStop(es)]
  }

  /** The message of the exception that ended the loop, if one did. */
  function RaisedWith(es: seq<Event>): Option<string> {
    if FirstStop(es) < |es| && es[FirstStop(es)].Raise? then Some(es[FirstStop(es)].msg) else None
  }

  /** Whether the client went away before the stream ended or raised. */
  predicate Disconnected(es: seq<Event>) {
    FirstStop(es) < |es| && es[FirstStop(es)].Disconnect?
  }

  /** The outcome of one turn: what was streamed, what was saved, the value
      of the session context variable afterwards, and an exception that
      escaped the generator. */
  datatype Turn = Turn(emitted: seq<Emission>, writes: seq<HistoryWrite>,
                       contextAfter: Option<string>, escaped: Option<string>)

  /** The turn as a function of its inputs. `historyFailure` is an exception
      raised while loading the history, before the `try` block. */
  function RunTurn(query: string, sessionId: string, contextBefore: Option<string>,
                   historyFailure: Option<string>, events: seq<Event>): Turn
  {
    if historyFailure.Some? then Turn([], [], Some(sessionId), historyFailure)
    else
      var consumed := Consumed(events);
      if Disconnected(events) then Turn(Emissions(consumed), [], contextBefore, Some(DISCONNECTED))
      else match RaisedWith(events)
      case Some(m) => Turn(Emissions(consumed) + [SystemError(m)], [], contextBefore, None)
      case None =>
        var full := Accumulated(consumed);
        Turn(Emissions(consumed),
             if IsBlank(full) then [] else [UserMessage(query), AiMessage(full)],
             contextBefore, None)
  }

  // ---------------------------------------------------------------------------
  // The generator
  // ---------------------------------------------------------------------------

  /** The body of `async_stream_generator`, statement by statement. */
  method StreamTurn(query: string, sessionId: string, contextBefore: Option<string>,
                    historyFailure: Option<string>, events: seq<Event>) returns (t: Turn)
    ensures t == RunTurn(query, sessionId, contextBefore, historyFailure, events)
  {
    var context := Some(sessionId);
    if historyFailure.Some? {
      // Raised before the `try`: the context variable is never reset.
      return Turn([], [], context, historyFailure);
    }
    var writes: seq<HistoryWrite> := [];
    var escaped: Option<string> := None;
    var emitted, full, error, disconnected := ConsumeEvents(events);
    if disconnected {
      // Not an `Exception`: no error line; it leaves through the `finally`.
      escaped := Some(DISCONNECTED);
    } else if error.Some? {
      emitted := emitted + [SystemError(error.value)];
    } else {
      if Strip(full) != "" {
        writes := [UserMessage(query), AiMessage(full)];
      }
      StripEmptyIffBlank(full);
    }
    context := contextBefore;
    t := Turn(emitted, writes, context, escaped);
  }

  /** The `async for` loop: forward visible tokens and tool markers, and
      accumulate the answer, until the stream ends, raises or is closed. */
  method ConsumeEvents(events: seq<Event>)
      returns (emitted: seq<Emission>, full: string, error: Option<string>, disconnected: bool)
    ensures emitted == Emissions(Consumed(events))
    ensures full == Accumulated(Consumed(events))
    ensures error == RaisedWith(events)
    ensures disconnected == Disconnected(events)
  {
    emitted := [];
    full := "";
    error := None;
    disconnected := false;
    var i := 0;
    while i < |events|
      invariant i <= FirstStop(events)
      invariant emitted == Emissions(events[..i])
      invariant full == Accumulated(events[..i])
      invariant error == None && !disconnected
    {
      var e := events[i];
      if e.Raise? {
        error := Some(e.msg);
        break;
      }
      if e.Disconnect? {
        disconnected := true;
        break;
      }
      PastNonStop(events, i);
      AccumulatedStep(events, i);
      EmissionsStep(events, i);
      emitted, full := HandleEvent(e, emitted, full);
      i := i + 1;
    }
    ConsumedUpTo(events, i);
  }

  /** An event that does not end the loop lies before the first stop. */
  lemma {:induction false} PastNonStop(events: seq<Event>, i: nat)
    requires i <= FirstStop(events) && i < |events| && !Stops(events[i])
    ensures i + 1 <= FirstStop(events)
  {
  }

  /** The loop stops at `i`: no earlier event ends it, and event `i`, if
      there is one, does. */
  lemma {:induction false} ConsumedUpTo(events: seq<Event>, i: nat)
    requires i <= FirstStop(events)
    requires i < |events| ==> Stops(events[i])
    ensures Consumed(events) == events[..i]
    ensures RaisedWith(events) == if i < |events| && events[i].Raise? then Some(events[i].msg) else None
    ensures Disconnected(events) <==> i < |events| && events[i].Disconnect?
  {
  }

  /** One event that does not end the loop: the branches of the loop body. */
  method HandleEvent(e: Event, emitted: seq<Emission>, full: string)
      returns (emitted': seq<Emission>, full': string)
    requires !Stops(e)
    ensures emitted' == emitted + EmissionsOf(e)
    ensures full' == full + (if Visible(e) then e.content else "")
  {
    emitted', full' := emitted, full;
    match e {
      case ModelChunk(tags, hasToolCallChunks, author, content) =>
        if "internal_retrieval" in tags {
        } else if hasToolCallChunks {
        } else if author != Some("rag_search_tool") {
          if content != "" {
            full' := full' + content;
            emitted' := emitted' + [Token(content)];
          }
        }
      case ToolStart(name) =>
        if name == "rag_search_tool" || name == "compliance_check_tool" {
          emitted' := emitted' + [AnalyzingMarker];
        }
      case OtherEvent(_) =>
    }
  }

  lemma {:induction false} EmissionsStep(es: seq<Event>, i: nat)
    requires i < |es|
    ensures Emissions(es[..i + 1]) == Emissions(es[..i]) + EmissionsOf(es[i])
  {
    assert es[..i + 1][..i] == es[..i];
  }

  lemma {:induction false} AccumulatedStep(es: seq<Event>, i: nat)
    requires i < |es|
    ensures Accumulated(es[..i + 1]) == Accumulated(es[..i]) + (if Visible(es[i]) then es[i].content else "")
  {
    assert es[..i + 1][..i] == es[..i];
    var vs := VisibleContents(es[..i]);
    if Visible(es[i]) {
      assert (vs + [es[i].content])[..|vs|] == vs;
    } else {
      assert VisibleContents(es[..i + 1]) == vs;
    }
  }

  lemma {:induction false} FirstStopAt(es: seq<Event>, i: nat)
    requires i <= |es|
    requires forall j :: 0 <= j < i ==> !Stops(es[j])
    requires i < |es| ==> Stops(es[i])
    ensures FirstStop(es) == i
  {
  }

  // ---------------------------------------------------------------------------
  // Properties
  // ---------------------------------------------------------------------------

  lemma {:induction false} EmissionsAppend(a: seq<Event>, b: seq<Event>)
    ensures Emissions(a + b) == Emissions(a) + Emissions(b)
    decreases |b|
  {
    if |b| > 0 {
      assert (a + b)[..|a + b| - 1] == a + b[..|b| - 1];
      EmissionsAppend(a, b[..|b| - 1]);
    } else {
      assert a + b == a;
    }
  }

  lemma {:induction false} VisibleContentsAppend(a: seq<Event>, b: seq<Event>)
    ensures VisibleContents(a + b) == VisibleContents(a) + VisibleContents(b)
    decreases |b|
  {
    if |b| > 0 {
      assert (a + b)[..|a + b| - 1] == a + b[..|b| - 1];
      VisibleContentsAppend(a, b[..|b| - 1]);
    } else {
      assert a + b == a;
    }
  }

  lemma {:induction false} FirstStopAppend(a: seq<Event>, b: seq<Event>)
    ensures FirstStop(a + b) == if FirstStop(a) < |a| then FirstStop(a) else |a| + FirstStop(b)
  {
    var k := if FirstStop(a) < |a| then FirstStop(a) else |a| + FirstStop(b);
    FirstStopAt(a + b, k);
  }

  /** An event that contributes nothing to the stream: a hidden chunk, an
      empty chunk, the start of an unannounced tool, any other event kind. */
  predicate Silent(e: Event) {
    !Stops(e) && EmissionsOf(e) == []
  }

  /** An exception or disconnect before the insertion point hides the
      inserted event. */
  lemma {:induction false} InsertAfterStop(a: seq<Event>, e: Event, b: seq<Event>)
    requires FirstStop(a) < |a|
    ensures RaisedWith(a + [e] + b) == RaisedWith(a + b)
    ensures Disconnected(a + [e] + b) == Disconnected(a + b)
    ensures Consumed(a + [e] + b) == Consumed(a + b)
  {
    assert a + [e] + b == a + ([e] + b);
    StopInPrefix(a, [e] + b);
    StopInPrefix(a, b);
  }

  /** With nothing ending the loop before it, the inserted event is
      consumed. */
  lemma {:induction false} InsertBeforeAnyStop(a: seq<Event>, e: Event, b: seq<Event>)
    requires !Stops(e) && FirstStop(a) == |a|
    ensures RaisedWith(a + [e] + b) == RaisedWith(a + b)
    ensures Disconnected(a + [e] + b) == Disconnected(a + b)
    ensures Consumed(a + [e] + b) == a + [e] + Consumed(b)
    ensures Consumed(a + b) == a + Consumed(b)
  {
    var ae := a + [e];
    assert a + [e] + b == ae + b;
    FirstStopAt([e], 1);
    NoStopInPrefix(a, [e]);
    NoStopInPrefix(ae, b);
    NoStopInPrefix(a, b);
  }

  lemma {:induction false} StopInPrefix(a: seq<Event>, b: seq<Event>)
    requires FirstStop(a) < |a|
    ensures FirstStop(a + b) == FirstStop(a)
    ensures Consumed(a + b) == Consumed(a)
    ensures RaisedWith(a + b) == RaisedWith(a)
    ensures Disconnected(a + b) == Disconnected(a)
  {
    var k := FirstStop(a);
    assert forall j :: 0 <= j <= k ==> (a + b)[j] == a[j];
    FirstStopAt(a + b, k);
    assert (a + b)[..k] == a[..k];
  }

  lemma {:induction false} NoStopInPrefix(a: seq<Event>, b: seq<Event>)
    requires FirstStop(a) == |a|
    ensures FirstStop(a + b) == |a| + FirstStop(b)
    ensures Consumed(a + b) == a + Consumed(b)
    ensures RaisedWith(a + b) == RaisedWith(b)
    ensures Disconnected(a + b) == Disconnected(b)
  {
    var k := |a| + FirstStop(b);
    assert forall j :: |a| <= j < |a + b| ==> (a + b)[j] == b[j - |a|];
    FirstStopAt(a + b, k);
    assert (a + b)[..k] == a + b[..FirstStop(b)];
  }

  lemma {:induction false} SilentInsertInvisible(a: seq<Event>, e: Event, c: seq<Event>)
    requires Silent(e)
    ensures Emissions(a + [e] + c) == Emissions(a + c)
    ensures VisibleContents(a + [e] + c) == VisibleContents(a + c)
  {
    SilentEmitsNothing(a, e, c);
    SilentContributesNothing(a, e, c);
  }

  lemma {:induction false} SilentEmitsNothing(a: seq<Event>, e: Event, c: seq<Event>)
    requires Silent(e)
    ensures Emissions(a + [e] + c) == Emissions(a + c)
  {
    var ae := a + [e];
    assert ae[..|ae| - 1] == a;
    assert Emissions(ae) == Emissions(a) + EmissionsOf(e);
    EmissionsAppend(ae, c);
    EmissionsAppend(a, c);
  }

  lemma {:induction false} SilentContributesNothing(a: seq<Event>, e: Event, c: seq<Event>)
    requires Silent(e)
    ensures VisibleContents(a + [e] + c) == VisibleContents(a + c)
  {
    var ae := a + [e];
    assert ae[..|ae| - 1] == a;
    assert VisibleContents(ae) == VisibleContents(a);
    VisibleContentsAppend(ae, c);
    VisibleContentsAppend(a, c);
  }

  /** Removing a silent event anywhere from the stream leaves the whole turn
      unchanged: filtered chunks are neither emitted, nor accumulated, nor
      saved. */
  lemma {:induction false} SilentEventChangesNothing(query: string, sessionId: string, contextBefore: Option<string>,
                                  historyFailure: Option<string>, a: seq<Event>, e: Event, b: seq<Event>)
    requires Silent(e)
    ensures RunTurn(query, sessionId, contextBefore, historyFailure, a + [e] + b)
         == RunTurn(query, sessionId, contextBefore, historyFailure, a + b)
  {
    if FirstStop(a) < |a| {
      InsertAfterStop(a, e, b);
    } else {
      InsertBeforeAnyStop(a, e, b);
      SilentInsertInvisible(a, e, Consumed(b));
    }
  }

  /** The token texts among the emissions, in order. */
  function TokenTexts(ems: seq<Emission>): seq<string> {
    if |ems| == 0 then []
    else TokenTexts(ems[..|ems| - 1]) + (if ems[|ems| - 1].Token? then [ems[|ems| - 1].text] else [])
  }

  lemma {:induction false} TokenTextsAppend(a: seq<Emission>, b: seq<Emission>)
    ensures TokenTexts(a + b) == TokenTexts(a) + TokenTexts(b)
    decreases |b|
  {
    if |b| > 0 {
      assert (a + b)[..|a + b| - 1] == a + b[..|b| - 1];
      TokenTextsAppend(a, b[..|b| - 1]);
    } else {
      assert a + b == a;
    }
  }

  /** The tokens streamed are exactly the visible chunk contents, each once
      and in arrival order; markers are not tokens. Hence the saved answer
      is the concatenation of the streamed model tokens. */
  lemma {:induction false} StreamedTokensAreVisibleContents(es: seq<Event>)
    ensures TokenTexts(Emissions(es)) == VisibleContents(es)
    ensures Accumulated(es) == Concat(TokenTexts(Emissions(es)))
  {
    if |es| > 0 {
      var init := es[..|es| - 1];
      var e := es[|es| - 1];
      StreamedTokensAreVisibleContents(init);
      TokenTextsAppend(Emissions(init), EmissionsOf(e));
      var one := EmissionsOf(e);
      if Visible(e) {
        assert one[..0] == [];
      } else if |one| == 1 {
        assert one[..0] == [];
        assert !one[0].Token?;
      }
    }
  }

  function MarkerCount(ems: seq<Emission>): nat {
    if |ems| == 0 then 0
    else MarkerCount(ems[..|ems| - 1]) + (if ems[|ems| - 1] == AnalyzingMarker then 1 else 0)
  }

  function AnnouncedStarts(es: seq<Event>): nat {
    if |es| == 0 then 0
    else AnnouncedStarts(es[..|es| - 1]) + (if es[|es| - 1].ToolStart? && Announced(es[|es| - 1].name) then 1 else 0)
  }

  lemma {:induction false} MarkerCountAppend(a: seq<Emission>, b: seq<Emission>)
    ensures MarkerCount(a + b) == MarkerCount(a) + MarkerCount(b)
    decreases |b|
  {
    if |b| > 0 {
      assert (a + b)[..|a + b| - 1] == a + b[..|b| - 1];
      MarkerCountAppend(a, b[..|b| - 1]);
    } else {
      assert a + b == a;
    }
  }

  /** One "Analyzing document" marker per start of the document-search or
      compliance tool, and none for the other tools. */
  lemma {:induction false} OneMarkerPerAnnouncedTool(es: seq<Event>)
    ensures MarkerCount(Emissions(es)) == AnnouncedStarts(es)
  {
    if |es| > 0 {
      var init := es[..|es| - 1];
      var e := es[|es| - 1];
      OneMarkerPerAnnouncedTool(init);
      MarkerCountAppend(Emissions(init), EmissionsOf(e));
      var one := EmissionsOf(e);
      if |one| == 1 {
        assert one[..0] == [];
      }
    }
  }

  function ErrorCount(ems: seq<Emission>): nat {
    if |ems| == 0 then 0
    else ErrorCount(ems[..|ems| - 1]) + (if ems[|ems| - 1].SystemError? then 1 else 0)
  }

  lemma {:induction false} NoErrorBeforeRaise(es: seq<Event>)
    ensures ErrorCount(Emissions(es)) == 0
  {
    if |es| > 0 {
      var init := es[..|es| - 1];
      var one := EmissionsOf(es[|es| - 1]);
      NoErrorBeforeRaise(init);
      var all := Emissions(init) + one;
      if |one| == 1 {
        assert all[..|all| - 1] == Emissions(init);
      } else {
        assert all == Emissions(init);
      }
    }
  }

  /** An exception while streaming: exactly one error line, emitted last,
      and nothing saved; the context variable is restored. */
  lemma {:induction false} ExceptionEndsTurnWithOneErrorLine(query: string, sessionId: string, contextBefore: Option<string>,
                                          events: seq<Event>, m: string)
    requires RaisedWith(events) == Some(m)
    ensures var t := RunTurn(query, sessionId, contextBefore, None, events);
            && |t.emitted| > 0
            && t.emitted[|t.emitted| - 1] == SystemError(m)
            && ErrorCount(t.emitted) == 1
            && t.writes == []
            && t.contextAfter == contextBefore
  {
    var t := RunTurn(query, sessionId, contextBefore, None, events);
    NoErrorBeforeRaise(Consumed(events));
    assert t.emitted[..|t.emitted| - 1] == Emissions(Consumed(events));
  }

  /** A client that goes away mid-stream has received exactly what the
      stream had produced up to that point, sees no error line, and nothing
      is saved, even when that text is not blank; the context variable is
      still restored. The uninterrupted turn over the same prefix would have
      saved it. */
  lemma {:induction false} DisconnectSavesNothing(query: string, sessionId: string, contextBefore: Option<string>,
                               events: seq<Event>)
    requires Disconnected(events)
    ensures var t := RunTurn(query, sessionId, contextBefore, None, events);
            var prefix := RunTurn(query, sessionId, contextBefore, None, Consumed(events));
            && t.emitted == prefix.emitted
            && ErrorCount(t.emitted) == 0
            && t.writes == []
            && t.contextAfter == contextBefore
            && t.escaped == Some(DISCONNECTED)
            && (prefix.writes != [] <==> !IsBlank(Accumulated(Consumed(events))))
  {
    var consumed := Consumed(events);
    FirstStopAt(consumed, |consumed|);
    assert Consumed(consumed) == consumed;
    NoErrorBeforeRaise(consumed);
  }

  /** Without an exception, the history receives the user query then the
      answer, exactly when the answer is not blank, and the answer saved is
      the text streamed as tokens. */
  lemma {:induction false} SavedOnlyWhenAnswerNonBlank(query: string, sessionId: string, contextBefore: Option<string>,
                                    events: seq<Event>)
    requires RaisedWith(events).None? && !Disconnected(events)
    ensures var t := RunTurn(query, sessionId, contextBefore, None, events);
            && (t.writes != [] <==> !IsBlank(Concat(TokenTexts(t.emitted))))
            && (t.writes != [] ==> t.writes == [UserMessage(query), AiMessage(Concat(TokenTexts(t.emitted)))])
            && t.contextAfter == contextBefore
  {
    StreamedTokensAreVisibleContents(Consumed(events));
  }

  /** The turn that answers directly, with no tool: the stream is the
      tokens themselves, with no marker and nothing held back. */
  lemma {:induction false} DirectAnswerStreamsEverything(query: string, sessionId: string, tokens: seq<string>)
    requires forall i :: 0 <= i < |tokens| ==> tokens[i] != ""
    ensures var events := seq(|tokens|, i requires 0 <= i < |tokens| => ModelChunk([], false, None, tokens[i]));
            var t := RunTurn(query, sessionId, None, None, events);
            && t.emitted == seq(|tokens|, i requires 0 <= i < |tokens| => Token(tokens[i]))
            && MarkerCount(t.emitted) == 0
  {
    var events := seq(|tokens|, i requires 0 <= i < |tokens| => ModelChunk([], false, None, tokens[i]));
    DirectAnswerEmissions(tokens, events);
    FirstStopAt(events, |events|);
    assert !Disconnected(events);
    assert Consumed(events) == events;
    OneMarkerPerAnnouncedTool(events);
    NoAnnouncedStarts(events);
  }

  lemma {:induction false} DirectAnswerEmissions(tokens: seq<string>, events: seq<Event>)
    requires forall i :: 0 <= i < |tokens| ==> tokens[i] != ""
    requires events == seq(|tokens|, i requires 0 <= i < |tokens| => ModelChunk([], false, None, tokens[i]))
    ensures Emissions(events) == seq(|tokens|, i requires 0 <= i < |tokens| => Token(tokens[i]))
  {
    if |tokens| > 0 {
      var n := |tokens| - 1;
      var shorter := seq(n, i requires 0 <= i < n => ModelChunk([], false, None, tokens[i]));
      assert events[..n] == shorter;
      DirectAnswerEmissions(tokens[..n], shorter);
      assert Visible(events[n]);
    }
  }

  lemma {:induction false} NoAnnouncedStarts(es: seq<Event>)
    requires forall i :: 0 <= i < |es| ==> es[i].ModelChunk?
    ensures AnnouncedStarts(es) == 0
  {
    if |es| > 0 {
      NoAnnouncedStarts(es[..|es| - 1]);
    }
  }
}
