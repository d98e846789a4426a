/**
 The chat surface's stream consumer: an incremental line splitter over the
 chunks of the response, whose parsed events are handled one by one. A handler
 writes the refs and the notices at once and queues its update of the messages;
 React runs the queued updates in order when it renders next. When that is, is
 arbitrary. An update of text reads and clears the paragraph break as it runs,
 not when it was queued. Step and Fold say what the events mean in order: what
 is shown when React renders after each of them.
 */
module ChatStream {
  import opened Wrappers

  datatype ToolCall = ToolCall(id: string, name: string, completed: bool)
  datatype MemoryEvent = MemoryEvent(toolUseId: string, memoryId: string, remembered: bool)
  datatype StagedOperation = StagedOperation(toolUseId: string, operationId: Option<string>, message: string)

  datatype Role = User | Assistant

  datatype Message = Message(
    role: Role,
    text: string,
    reasoning: Option<string>,
    toolCalls: Option<seq<ToolCall>>,
    staged: Option<seq<StagedOperation>>,
    memoryEvents: Option<seq<MemoryEvent>>)

  datatype Event =
    | Conversation(conversationId: string)
    | ReasoningDelta(delta: string)
    | StreamRestart(assistantText: Option<string>)
    | TextDelta(delta: string)
    | ToolUse(toolUseId: string, name: string)
    | ToolResult(toolUseId: string)
    | MemoryCaptured(memory: MemoryEvent)
    | Staged(operation: StagedOperation)
    | ErrorEvent(message: string)
    | TurnComplete
    | UnknownKind
    | NoKind

  /** What a turn's events act on. mounted: this turn's assistant bubble has been appended. */
  datatype Chat = Chat(
    messages: seq<Message>,
    mounted: bool,
    breakBeforeNextText: bool,
    sawTerminalEvent: bool,
    retryNotice: bool,
    errorMessage: Option<string>,
    conversationId: Option<string>)

  const CONNECTION_LOST := "Anslutningen bröts innan svaret blev klart. Försök igen."

  /** White space as String.prototype.trim and the class \s of regular expressions read it. */
  predicate IsSpace(c: char) {
    || '\t' <= c <= '\r' || c == ' ' || c == '\U{00A0}' || c == '\U{1680}' || '\U{2000}' <= c <= '\U{200A}'
    || c == '\U{2028}' || c == '\U{2029}' || c == '\U{202F}' || c == '\U{205F}' || c == '\U{3000}' || c == '\U{FEFF}'
  }

  predicate EndsWithSpace(s: string) {
    s != "" && IsSpace(s[|s| - 1])
  }

  predicate StartsWithSpace(s: string) {
    s != "" && IsSpace(s[0])
  }

  function Trim(s: string): string {
    if StartsWithSpace(s) then Trim(s[1..])
    else if EndsWithSpace(s) then Trim(s[..|s| - 1])
    else s
  }

  /** The code points of white space and of line terminators in sections 12.2 and 12.3 of ECMA-262. */
  lemma SpaceCodes(c: char)
    ensures IsSpace(c) <==>
            c as int in {0x09, 0x0A, 0x0B, 0x0C, 0x0D, 0x20, 0xA0, 0x1680, 0x2000, 0x2001, 0x2002, 0x2003, 0x2004,
                         0x2005, 0x2006, 0x2007, 0x2008, 0x2009, 0x200A, 0x2028, 0x2029, 0x202F, 0x205F, 0x3000, 0xFEFF}
  {
  }

  /** Trimming takes off white space at both ends, all of it and nothing else. */
  lemma {:induction false} TrimIsExact(s: string) returns (i: nat, j: nat)
    ensures i <= j <= |s| && Trim(s) == s[i..j] && !StartsWithSpace(Trim(s)) && !EndsWithSpace(Trim(s))
    ensures forall k | 0 <= k < i || j <= k < |s| :: IsSpace(s[k])
    decreases |s|
  {
    if StartsWithSpace(s) {
      var a, b := TrimIsExact(s[1..]);
      i, j := a + 1, b + 1;
      assert forall k | 0 < k < |s| :: s[k] == s[1..][k - 1];
    } else if EndsWithSpace(s) {
      i, j := TrimIsExact(s[..|s| - 1]);
    } else {
      i, j := 0, |s|;
    }
  }

  // ------------------------------------------------------------ the events in order

  const EMPTY_BUBBLE := Message(Assistant, "", None, None, None, None)

  /** Every event with a kind shows something, except the two metadata ones. */
  predicate IsVisible(e: Event) {
    !e.NoKind? && !e.Conversation? && !e.TurnComplete?
  }

  function Mount(c: Chat): Chat {
    if c.mounted then c else c.(mounted := true, messages := c.messages + [EMPTY_BUBBLE])
  }


  function MapCalls(calls: seq<ToolCall>, id: string): seq<ToolCall> {
    if calls == [] then []
    else [if calls[0].id == id then calls[0].(completed := true) else calls[0]] + MapCalls(calls[1..], id)
  }

  function Completed(calls: seq<ToolCall>): seq<ToolCall> {
    if calls == [] then [] else (if calls[0].completed then [calls[0]] else []) + Completed(calls[1..])
  }

  function WithoutCall(calls: seq<ToolCall>, id: string): seq<ToolCall> {
    if calls == [] then [] else (if calls[0].id != id then [calls[0]] else []) + WithoutCall(calls[1..], id)
  }

  /** The delta as it is appended: opened by a paragraph break when one is due. */
  function Opened(text: string, delta: string, breakDue: bool): string {
    if breakDue && text != "" && !EndsWithSpace(text) && !StartsWithSpace(delta) then "\n\n" + delta else delta
  }

  function Updated(m: Message, e: Event, breakDue: bool): Message {
    match e
    case ReasoningDelta(delta) => m.(reasoning := Some(m.reasoning.GetOr("") + delta))
    case StreamRestart(restored) =>
      m.(text := restored.GetOr(""), reasoning := None,
         toolCalls := if m.toolCalls.None? then None else Some(Completed(m.toolCalls.value)))
    case TextDelta(delta) => m.(text := m.text + Opened(m.text, delta, breakDue))
    case ToolUse(id, name) => m.(toolCalls := Some(m.toolCalls.GetOr([]) + [ToolCall(id, name, false)]))
    case ToolResult(id) =>
      m.(toolCalls := if m.toolCalls.None? then None else Some(MapCalls(m.toolCalls.value, id)))
    case MemoryCaptured(memory) =>
      m.(memoryEvents := Some(m.memoryEvents.GetOr([]) + [memory]),
         toolCalls := if m.toolCalls.None? then None else Some(WithoutCall(m.toolCalls.value, memory.toolUseId)))
    case Staged(operation) => m.(staged := Some(m.staged.GetOr([]) + [operation]))
    case _ => m
  }

  predicate LastIsAssistant(messages: seq<Message>) {
    messages != [] && messages[|messages| - 1].role == Assistant
  }

  /** The assistant bubble at the end as an event updates it. */
  function UpdateLastAssistant(messages: seq<Message>, e: Event, breakDue: bool): seq<Message> {
    if !LastIsAssistant(messages) then messages
    else messages[..|messages| - 1] + [Updated(messages[|messages| - 1], e, breakDue)]
  }

  function BreakAfter(c: Chat, e: Event): bool {
    match e
    case ToolUse(_, _) => true
    case StreamRestart(restored) => restored.GetOr("") != ""
    case TextDelta(_) => c.breakBeforeNextText && !LastIsAssistant(c.messages)
    case _ => c.breakBeforeNextText
  }

  /** The flags and notices after an event; the messages are as they were. */
  function Noted(c: Chat, e: Event): Chat {
    c.(breakBeforeNextText := BreakAfter(c, e),
       retryNotice := if e.StreamRestart? then true
                      else if e.TextDelta? || e.ErrorEvent? || e.TurnComplete? then false else c.retryNotice,
       errorMessage := if e.ErrorEvent? then Some(e.message) else c.errorMessage,
       conversationId := if e.Conversation? then Some(e.conversationId) else c.conversationId)
  }

  /** One parsed line of the stream. */
  function Step(c0: Chat, e: Event): Chat {
    var c := if IsVisible(e) then Mount(c0) else c0;
    Noted(c, e).(messages := if IsVisible(e)
                             then UpdateLastAssistant(c.messages, e, c.breakBeforeNextText)
                             else c.messages,
                 sawTerminalEvent := c.sawTerminalEvent || e.TurnComplete? || e.ErrorEvent?)
  }

  function Fold(c: Chat, events: seq<Event>): Chat
    decreases |events|
  {
    if events == [] then c else Fold(Step(c, events[0]), events[1..])
  }

  // ------------------------------------------------------------ updates that wait for a render

  /** An updater passed to setMessages. */
  datatype Update = AppendBubble | UpdateBubble(event: Event)

  /** The messages as rendered, everything else as the handlers left it, and the updates not run yet. */
  datatype Live = Live(chat: Chat, pending: seq<Update>, handled: nat)

  predicate HasUpdate(e: Event) {
    IsVisible(e) && !e.ErrorEvent? && !e.UnknownKind?
  }

  /** One updater: it finds the paragraph break as it is now, and a text that it is asked to append clears it. */
  function RunOne(messages: seq<Message>, breakDue: bool, u: Update): (seq<Message>, bool) {
    match u
    case AppendBubble => (messages + [EMPTY_BUBBLE], breakDue)
    case UpdateBubble(e) =>
      (UpdateLastAssistant(messages, e, breakDue),
       breakDue && !(e.TextDelta? && LastIsAssistant(messages)))
  }

  function Run(messages: seq<Message>, breakDue: bool, updates: seq<Update>): (seq<Message>, bool)
    decreases |updates|
  {
    if updates == [] then (messages, breakDue)
    else
      var next := RunOne(messages, breakDue, updates[0]);
      Run(next.0, next.1, updates[1..])
  }

  /** What is shown once the waiting updates have run. */
  function Shown(l: Live): Chat {
    var (messages, due) := Run(l.chat.messages, l.chat.breakBeforeNextText, l.pending);
    l.chat.(messages := messages, breakBeforeNextText := due)
  }

  function Rendered(l: Live): Live {
    Live(Shown(l), [], l.handled)
  }

  function BreakWritten(breakDue: bool, e: Event): bool {
    match e
    case ToolUse(_, _) => true
    case StreamRestart(restored) => restored.GetOr("") != ""
    case _ => breakDue
  }

  /** A terminal event is remembered as soon as its line is parsed. */
  function Remembered(l: Live, e: Event): Live {
    if e.TurnComplete? || e.ErrorEvent? then l.(chat := l.chat.(sawTerminalEvent := true)) else l
  }

  /** The bubble is mounted once, and appears with a later render. */
  function WithBubble(l: Live): Live {
    if l.chat.mounted then l
    else l.(chat := l.chat.(mounted := true), pending := l.pending + [AppendBubble])
  }

  /** An event's handler: refs and notices change at once, the messages wait. */
  function Noticed(l: Live, e: Event): Live {
    l.(chat := Noted(l.chat, e).(breakBeforeNextText := BreakWritten(l.chat.breakBeforeNextText, e)),
       pending := l.pending + if HasUpdate(e) then [UpdateBubble(e)] else [])
  }

  /** One parsed line. */
  function Handled(l: Live, e: Event): Live {
    var parsed := Remembered(l, e);
    var mounted := if IsVisible(e) then WithBubble(parsed) else parsed;
    Noticed(mounted, e).(handled := l.handled + 1)
  }

  /** renders says whether React renders after the n-th event, before the next one is handled. */
  function Next(l: Live, e: Event, renders: nat -> bool): Live {
    if renders(l.handled) then Rendered(Handled(l, e)) else Handled(l, e)
  }

  function Consume(l: Live, events: seq<Event>, renders: nat -> bool): Live
    decreases |events|
  {
    if events == [] then l else Consume(Next(l, events[0], renders), events[1..], renders)
  }

  lemma {:induction false} ConsumeConcat(l: Live, a: seq<Event>, b: seq<Event>, renders: nat -> bool)
    ensures Consume(l, a + b, renders) == Consume(Consume(l, a, renders), b, renders)
    decreases |a|
  {
    hide Next;
    if a == [] {
      assert a + b == b;
    } else {
      assert (a + b)[1..] == a[1..] + b;
      ConsumeConcat(Next(l, a[0], renders), a[1..], b, renders);
    }
  }

  // ------------------------------------------------------------ lines

  /** The newline-terminated lines of a text. */
  function Lines(text: string): (lines: seq<string>)
    decreases |text|
  {
    if '\n' !in text then []
    else
      var nl := IndexOf(text, '\n');
      [text[..nl]] + Lines(text[nl + 1..])
  }

  function Tail(text: string): string
    decreases |text|
  {
    if '\n' !in text then text else Tail(text[IndexOf(text, '\n') + 1..])
  }

  function IndexOf(s: string, c: char): (i: nat)
    requires c in s
    ensures i < |s| && s[i] == c && c !in s[..i]
  {
    if s[0] == c then 0 else 1 + IndexOf(s[1..], c)
  }

  function Unlines(lines: seq<string>): string {
    if lines == [] then "" else lines[0] + "\n" + Unlines(lines[1..])
  }

  lemma {:induction false} IndexOfFirst(s: string, c: char, i: nat)
    requires i < |s| && s[i] == c && c !in s[..i]
    ensures IndexOf(s, c) == i
  {
    if i > 0 {
      assert s[0] == s[..i][0];
      assert s[1..][..i - 1] == s[..i][1..];
      IndexOfFirst(s[1..], c, i - 1);
    }
  }

  lemma FirstLine(line: string, rest: string)
    requires '\n' !in line
    ensures Lines(line + "\n" + rest) == [line] + Lines(rest)
    ensures Tail(line + "\n" + rest) == Tail(rest)
  {
    var text := line + "\n" + rest;
    assert text[..|line|] == line && text[|line|] == '\n' && text[|line| + 1..] == rest;
    IndexOfFirst(text, '\n', |line|);
  }

  /** Lines and Tail are the only way to cut a text into newline-free lines and a newline-free rest. */
  lemma {:induction false} LinesAreUnique(lines: seq<string>, rest: string)
    requires (forall line | line in lines :: '\n' !in line) && '\n' !in rest
    ensures Lines(Unlines(lines) + rest) == lines && Tail(Unlines(lines) + rest) == rest
  {
    if lines == [] {
      assert Unlines(lines) + rest == rest;
    } else {
      assert Unlines(lines) + rest == lines[0] + "\n" + (Unlines(lines[1..]) + rest);
      LinesAreUnique(lines[1..], rest);
      FirstLine(lines[0], Unlines(lines[1..]) + rest);
    }
  }

  lemma CutAtNewline(text: string)
    requires '\n' in text
    ensures var nl := IndexOf(text, '\n'); text == text[..nl] + "\n" + text[nl + 1..]
  {
  }

  lemma UnlinesCons(line: string, lines: seq<string>)
    ensures Unlines([line] + lines) == line + "\n" + Unlines(lines)
  {
    assert ([line] + lines)[1..] == lines;
  }

  lemma {:induction false} LinesCutTheText(text: string)
    ensures Unlines(Lines(text)) + Tail(text) == text && '\n' !in Tail(text)
    ensures forall line | line in Lines(text) :: '\n' !in line
    decreases |text|
  {
    if '\n' in text {
      var nl := IndexOf(text, '\n');
      var line, rest := text[..nl], text[nl + 1..];
      LinesCutTheText(rest);
      CutAtNewline(text);
      UnlinesCons(line, Lines(rest));
      Regroup(line + "\n", Unlines(Lines(rest)), Tail(rest));
    } else {
      assert Unlines([]) + text == text;
    }
  }

  lemma Regroup(a: string, b: string, c: string)
    ensures (a + b) + c == a + (b + c)
  {
  }

  /** A line that is blank or does not parse is skipped. */
  function EventOf(line: string, parse: string -> Option<Event>): seq<Event> {
    var trimmed := Trim(line);
    if trimmed == "" then [] else match parse(trimmed) case Some(e) => [e] case None => []
  }

  function EventsOf(lines: seq<string>, parse: string -> Option<Event>): seq<Event> {
    if lines == [] then [] else EventOf(lines[0], parse) + EventsOf(lines[1..], parse)
  }

  function Flatten(chunks: seq<string>): string {
    if chunks == [] then "" else chunks[0] + Flatten(chunks[1..])
  }

  /** How the reader ended: the stream closed, or read() threw. */
  datatype Ending = Closed | Failed(message: string)

  /** The notice a turn ends with, unless the user stopped it. */
  function Ended(c: Chat, ending: Ending, aborted: bool): Chat {
    if aborted then c
    else match ending
      case Failed(message) => c.(errorMessage := Some(message))
      case Closed => if c.sawTerminalEvent then c else c.(errorMessage := Some(CONNECTION_LOST))
  }

  class Turn {
    var messages: seq<Message>
    var pending: seq<Update>
    var handled: nat
    var assistantBubbleAppended: bool
    var breakBeforeNextText: bool
    var sawTerminalEvent: bool
    var retryNotice: bool
    var errorMessage: Option<string>
    var conversationId: Option<string>
    /** When React renders: after which events. */
    const renders: nat -> bool
    /** Every event handled so far. */
    ghost var dispatched: seq<Event>

    function View(): Live
      reads this
    {
      Live(Chat(messages, assistantBubbleAppended, breakBeforeNextText, sawTerminalEvent, retryNotice,
                errorMessage, conversationId), pending, handled)
    }

    /** A turn resets the paragraph break, so an earlier turn cannot leak one into it. */
    constructor (messages: seq<Message>, conversationId: Option<string>, renders: nat -> bool)
      ensures View() == Live(Chat(messages, false, false, false, false, None, conversationId), [], 0)
      ensures this.renders == renders && dispatched == []
    {
      this.messages, this.conversationId, this.renders := messages, conversationId, renders;
      pending, handled, dispatched := [], 0, [];
      assistantBubbleAppended, breakBeforeNextText, sawTerminalEvent, retryNotice := false, false, false, false;
      errorMessage := None;
    }

    method EnsureAssistantBubble()
      modifies this`assistantBubbleAppended, this`pending
      ensures View() == WithBubble(old(View()))
    {
      if assistantBubbleAppended {
        return;
      }
      assistantBubbleAppended := true;
      pending := pending + [AppendBubble];
    }

    /** What an event does to the flags and the notices of the turn. */
    method NoteEvent(e: Event)
      modifies this`breakBeforeNextText, this`retryNotice, this`errorMessage, this`conversationId
      ensures View() == old(View()).(chat := Noted(old(View()).chat, e).(
                                       breakBeforeNextText := BreakWritten(old(breakBeforeNextText), e)))
    {
      match e {
        case Conversation(id) =>
          conversationId := Some(id);
        case StreamRestart(restored) =>
          retryNotice := true;
          breakBeforeNextText := restored.GetOr("") != "";
        case TextDelta(_) =>
          retryNotice := false;
        case ToolUse(_, _) =>
          breakBeforeNextText := true;
        case ErrorEvent(message) =>
          retryNotice := false;
          errorMessage := Some(message);
        case TurnComplete =>
          retryNotice := false;
        case _ =>
      }
    }

    method HandleEvent(e: Event)
      modifies this`breakBeforeNextText, this`retryNotice, this`errorMessage, this`conversationId, this`pending
      ensures View() == Noticed(old(View()), e)
    {
      hide Noted, BreakWritten;
      NoteEvent(e);
      assert pending + [] == pending;
      if HasUpdate(e) {
        pending := pending + [UpdateBubble(e)];
      }
    }

    /** React renders: the waiting updates run, in order. */
    method Render()
      modifies this`messages, this`breakBeforeNextText, this`pending
      ensures View() == Rendered(old(View()))
    {
      hide RunOne;
      while pending != []
        invariant Run(messages, breakBeforeNextText, pending) ==
                    Run(old(messages), old(breakBeforeNextText), old(pending))
        decreases |pending|
      {
        var (next, due) := RunOne(messages, breakBeforeNextText, pending[0]);
        messages, breakBeforeNextText, pending := next, due, pending[1..];
      }
    }

    /** Everything but the render that may follow. */
    method HandleLine(e: Event)
      modifies this`breakBeforeNextText, this`retryNotice, this`errorMessage, this`conversationId, this`pending
      modifies this`sawTerminalEvent, this`assistantBubbleAppended, this`handled
      ensures View() == Handled(old(View()), e)
    {
      hide WithBubble, Noticed;
      if e.TurnComplete? || e.ErrorEvent? {
        sawTerminalEvent := true;
      }
      if IsVisible(e) {
        EnsureAssistantBubble();
      }
      HandleEvent(e);
      handled := handled + 1;
    }

    /** One parsed line: note a terminal event, mount the bubble for a visible one, then handle it. */
    method Dispatch(e: Event)
      modifies this
      ensures View() == Next(old(View()), e, renders) && dispatched == old(dispatched) + [e]
    {
      hide Handled, Rendered;
      HandleLine(e);
      HandledCounts(old(View()), e);
      dispatched := dispatched + [e];
      if renders(handled - 1) {
        Render();
      }
    }

    /** Consumes every complete line of the buffer and returns what is left. */
    method DrainLines(buffer0: string, parse: string -> Option<Event>) returns (buffer: string)
      modifies this
      ensures View() == Consume(old(View()), EventsOf(Lines(buffer0), parse), renders)
      ensures dispatched == old(dispatched) + EventsOf(Lines(buffer0), parse)
      ensures buffer == Tail(buffer0)
    {
      hide Next, Consume, Lines, Tail, EventsOf;
      NothingConsumed(View(), renders);
      buffer := buffer0;
      ghost var done: seq<Event> := [];
      while '\n' in buffer
        invariant View() == Consume(old(View()), done, renders) && dispatched == old(dispatched) + done
        invariant done + EventsOf(Lines(buffer), parse) == EventsOf(Lines(buffer0), parse)
        invariant Tail(buffer) == Tail(buffer0)
        decreases |buffer|
      {
        var nl := IndexOf(buffer, '\n');
        var line := Trim(buffer[..nl]);
        ghost var here, rest := EventOf(buffer[..nl], parse), Lines(buffer[nl + 1..]);
        FirstLineOfBuffer(buffer, parse);
        assert done + (here + EventsOf(rest, parse)) == (done + here) + EventsOf(rest, parse);
        buffer := buffer[nl + 1..];
        ConsumeConcat(old(View()), done, here, renders);
        OneConsumed(Consume(old(View()), done, renders), here, renders);
        done := done + here;
        if line != "" {
          var parsed := parse(line);
          if parsed.Some? {
            Dispatch(parsed.value);
          }
        }
      }
      OpenLineHasNoEvents(buffer, parse);
      assert done == EventsOf(Lines(buffer0), parse);
    }

    /**
     The read loop. The events handled depend on the concatenation of the chunks alone: they are its
     newline-terminated, non-blank, parseable lines, in order.
     */
    method ReadStream(chunks: seq<string>, parse: string -> Option<Event>, ending: Ending, aborted: bool)
      modifies this
      ensures dispatched == old(dispatched) + EventsOf(Lines(Flatten(chunks)), parse)
      ensures var after := Consume(old(View()), EventsOf(Lines(Flatten(chunks)), parse), renders);
              View() == after.(chat := Ended(after.chat, ending, aborted))
    {
      hide Next, Consume, Lines, Tail, EventsOf, EventOf;
      LinesOfNothing(View(), parse, renders);
      var buffer := "";
      ghost var seen, lines := "", [];
      assert chunks[0..] == chunks;
      for n := 0 to |chunks|
        invariant Flatten(chunks) == seen + Flatten(chunks[n..])
        invariant lines == Lines(seen) && buffer == Tail(seen)
        invariant View() == Consume(old(View()), EventsOf(lines, parse), renders)
        invariant dispatched == old(dispatched) + EventsOf(lines, parse)
      {
        assert chunks[n..][1..] == chunks[n + 1..];
        ghost var added := Lines(buffer + chunks[n]);
        LinesGrow(seen, chunks[n]);
        EventsConcat(lines, added, parse);
        ConsumeConcat(old(View()), EventsOf(lines, parse), EventsOf(added, parse), renders);
        buffer := DrainLines(buffer + chunks[n], parse);
        Regroup(seen, chunks[n], Flatten(chunks[n + 1..]));
        seen, lines := seen + chunks[n], lines + added;
      }
      assert Flatten(chunks) == seen;
      if !aborted {
        match ending {
          case Failed(message) =>
            errorMessage := Some(message);
          case Closed =>
            if !sawTerminalEvent {
              errorMessage := Some(CONNECTION_LOST);
            }
        }
      }
    }
  }

  lemma {:induction false} EventsConcat(a: seq<string>, b: seq<string>, parse: string -> Option<Event>)
    ensures EventsOf(a + b, parse) == EventsOf(a, parse) + EventsOf(b, parse)
  {
    if a == [] {
      assert a + b == b;
    } else {
      assert (a + b)[1..] == a[1..] + b;
      EventsConcat(a[1..], b, parse);
    }
  }

  lemma FirstLineOfBuffer(buffer: string, parse: string -> Option<Event>)
    requires '\n' in buffer
    ensures var nl := IndexOf(buffer, '\n');
            && EventsOf(Lines(buffer), parse) ==
                 EventOf(buffer[..nl], parse) + EventsOf(Lines(buffer[nl + 1..]), parse)
            && Tail(buffer) == Tail(buffer[nl + 1..])
  {
    hide Lines, Tail, EventsOf, EventOf, IndexOf;
    FirstCut(buffer);
    var nl := IndexOf(buffer, '\n');
    EventsCons(buffer[..nl], Lines(buffer[nl + 1..]), parse);
  }

  lemma FirstCut(text: string)
    requires '\n' in text
    ensures var nl := IndexOf(text, '\n');
            Lines(text) == [text[..nl]] + Lines(text[nl + 1..]) && Tail(text) == Tail(text[nl + 1..])
  {
    hide Lines, Tail, IndexOf;
    FirstCutOfLines(text);
    FirstCutOfTail(text);
  }

  lemma FirstCutOfLines(text: string)
    requires '\n' in text
    ensures Lines(text) == [text[..IndexOf(text, '\n')]] + Lines(text[IndexOf(text, '\n') + 1..])
  {
    hide Tail, IndexOf;
  }

  lemma FirstCutOfTail(text: string)
    requires '\n' in text
    ensures Tail(text) == Tail(text[IndexOf(text, '\n') + 1..])
  {
    hide Lines, IndexOf;
  }

  lemma EventsCons(line: string, rest: seq<string>, parse: string -> Option<Event>)
    ensures EventsOf([line] + rest, parse) == EventOf(line, parse) + EventsOf(rest, parse)
  {
    hide EventOf;
    assert ([line] + rest)[1..] == rest;
  }

  lemma OpenLineHasNoEvents(buffer: string, parse: string -> Option<Event>)
    requires '\n' !in buffer
    ensures EventsOf(Lines(buffer), parse) == [] && Tail(buffer) == buffer
  {
  }

  lemma HandledCounts(l: Live, e: Event)
    ensures Handled(l, e).handled == l.handled + 1
  {
  }

  lemma NothingConsumed(l: Live, renders: nat -> bool)
    ensures Consume(l, [], renders) == l
  {
  }

  lemma OneConsumed(l: Live, events: seq<Event>, renders: nat -> bool)
    requires |events| <= 1
    ensures Consume(l, events, renders) == if events == [] then l else Next(l, events[0], renders)
  {
    hide Next;
    if events != [] {
      assert events[1..] == [];
    }
  }

  lemma LinesOfNothing(l: Live, parse: string -> Option<Event>, renders: nat -> bool)
    ensures Lines("") == [] && Tail("") == "" && Consume(l, EventsOf([], parse), renders) == l
    ensures EventsOf([], parse) == []
  {
  }

  /** A chunk completes the line that was open and adds its own. */
  lemma {:induction false} LinesGrow(seen: string, chunk: string)
    ensures Lines(seen + chunk) == Lines(seen) + Lines(Tail(seen) + chunk)
    ensures Tail(seen + chunk) == Tail(Tail(seen) + chunk)
    decreases |seen|
  {
    hide Lines, Tail, IndexOf;
    if '\n' in seen {
      var nl := IndexOf(seen, '\n');
      var line, rest := seen[..nl], seen[nl + 1..];
      CutAtNewline(seen);
      Regroup(line + "\n", rest, chunk);
      FirstLine(line, rest);
      FirstLine(line, rest + chunk);
      LinesGrow(rest, chunk);
      RegroupLines([line], Lines(rest), Lines(Tail(rest) + chunk));
    } else {
      OpenLine(seen);
    }
  }

  lemma OpenLine(text: string)
    requires '\n' !in text
    ensures Lines(text) == [] && Tail(text) == text
  {
  }

  lemma RegroupLines(a: seq<string>, b: seq<string>, c: seq<string>)
    ensures (a + b) + c == a + (b + c)
  {
  }
}
