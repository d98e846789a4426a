/**
 What the bubble of a whole turn shows beside its text: chips, reasoning, staged operations and memories, said of the
 list of events alone. None of it depends on when React renders.
 */
module ChatBubbles {
  import opened Wrappers
  import opened ChatStream
  import opened ChatLaws
  import opened ChatRenders

  // ------------------------------------------------------------ read off the list of events

  /** A result of the tool use at i came before the first n events were through. */
  predicate HasResult(events: seq<Event>, i: nat, n: nat)
    requires i < n <= |events| && events[i].ToolUse?
  {
    exists k | i < k < n :: events[k] == ToolResult(events[i].toolUseId)
  }

  /**
   The chip of the tool use at i is still up: no memory took its place, and it was completed before every later restart.
   */
  predicate IsUp(events: seq<Event>, i: nat)
    requires i < |events| && events[i].ToolUse?
  {
    && (forall j | i < j < |events| && events[j].MemoryCaptured? ::
          events[j].memory.toolUseId != events[i].toolUseId)
    && forall j | i < j < |events| && events[j].StreamRestart? :: HasResult(events, i, j)
  }

  /** The chip of the event at i, if it is one that put up a chip and the chip is still up. */
  function ChipAt(events: seq<Event>, i: nat): seq<ToolCall>
    requires i < |events|
  {
    var e := events[i];
    if e.ToolUse? && IsUp(events, i) then [ToolCall(e.toolUseId, e.name, HasResult(events, i, |events|))] else []
  }

  /** The chips of the first k events that are still up after all of them, in the order of their uses. */
  function Chips(events: seq<Event>, k: nat): seq<ToolCall>
    requires k <= |events|
  {
    if k == 0 then [] else Chips(events, k - 1) + ChipAt(events, k - 1)
  }

  predicate HasRestart(events: seq<Event>, from: nat) {
    exists j | from <= j < |events| :: events[j].StreamRestart?
  }

  /** The reasoning among the first k events that no restart discarded. */
  function Reasoned(events: seq<Event>, k: nat): string
    requires k <= |events|
  {
    if k == 0 then ""
    else
      var e := events[k - 1];
      Reasoned(events, k - 1) + if e.ReasoningDelta? && !HasRestart(events, k) then e.delta else ""
  }

  function StagedOperations(events: seq<Event>): seq<StagedOperation> {
    if events == [] then []
    else
      var n := |events| - 1;
      StagedOperations(events[..n]) + if events[n].Staged? then [events[n].operation] else []
  }

  function Memories(events: seq<Event>): seq<MemoryEvent> {
    if events == [] then []
    else
      var n := |events| - 1;
      Memories(events[..n]) + if events[n].MemoryCaptured? then [events[n].memory] else []
  }

  /** What the bubble shows of a whole turn's events, beside the text. */
  ghost predicate ShowsTheWork(m: Message, events: seq<Event>) {
    && m.role == Assistant
    && m.toolCalls.GetOr([]) == Chips(events, |events|)
    && m.reasoning.GetOr("") == Reasoned(events, |events|)
    && (m.reasoning.Some? <==>
        exists i | 0 <= i < |events| :: events[i].ReasoningDelta? && !HasRestart(events, i + 1))
    && m.staged.GetOr([]) == StagedOperations(events)
    && m.memoryEvents.GetOr([]) == Memories(events)
  }

  // ------------------------------------------------------------ the chips

  /** A result completes exactly the chips of its id, and changes nothing else about any chip. */
  lemma {:induction false} ResultCompletes(calls: seq<ToolCall>, id: string)
    ensures |MapCalls(calls, id)| == |calls|
    ensures forall k | 0 <= k < |calls| ::
              MapCalls(calls, id)[k] == ToolCall(calls[k].id, calls[k].name, calls[k].completed || calls[k].id == id)
  {
    if calls != [] {
      ResultCompletes(calls[1..], id);
    }
  }

  /** The chips after one more event. */
  function CallsAfter(calls: seq<ToolCall>, e: Event): seq<ToolCall> {
    match e
    case StreamRestart(_) => Completed(calls)
    case ToolUse(id, name) => calls + [ToolCall(id, name, false)]
    case ToolResult(id) => MapCalls(calls, id)
    case MemoryCaptured(memory) => WithoutCall(calls, memory.toolUseId)
    case _ => calls
  }

  lemma {:induction false} WithoutAppend(calls: seq<ToolCall>, call: ToolCall, id: string)
    ensures WithoutCall(calls + [call], id) == WithoutCall(calls, id) + if call.id == id then [] else [call]
  {
    if calls != [] {
      assert (calls + [call])[1..] == calls[1..] + [call];
      WithoutAppend(calls[1..], call, id);
    }
  }

  lemma {:induction false} MapAppend(calls: seq<ToolCall>, call: ToolCall, id: string)
    ensures MapCalls(calls + [call], id) ==
              MapCalls(calls, id) + [if call.id == id then call.(completed := true) else call]
  {
    if calls != [] {
      assert (calls + [call])[1..] == calls[1..] + [call];
      MapAppend(calls[1..], call, id);
    }
  }

  /** One more event does to each chip by itself what it means for the tool use at i. */
  lemma ChipAfter(events: seq<Event>, e: Event, i: nat, calls: seq<ToolCall>)
    requires i < |events| && events[i].ToolUse? && !e.ToolUse?
    ensures var after, use := events + [e], events[i];
            var chip := ToolCall(use.toolUseId, use.name, HasResult(events, i, |events|));
            var chip' := ToolCall(use.toolUseId, use.name, HasResult(after, i, |after|));
            && (IsUp(after, i) ==> IsUp(events, i))
            && (IsUp(events, i) ==>
                  CallsAfter(calls + [chip], e) == CallsAfter(calls, e) + if IsUp(after, i) then [chip'] else [])
  {
    var after, use := events + [e], events[i];
    ResultAfter(events, e, i);
    UpAfter(events, e, i);
    var chip := ToolCall(use.toolUseId, use.name, HasResult(events, i, |events|));
    CompletedAppend(calls, chip);
    match e {
      case ToolResult(id) => MapAppend(calls, chip, id);
      case MemoryCaptured(memory) => WithoutAppend(calls, chip, memory.toolUseId);
      case _ =>
    }
  }

  lemma ResultAfter(events: seq<Event>, e: Event, i: nat)
    requires i < |events| && events[i].ToolUse?
    ensures var after := events + [e];
            && (forall n | i < n <= |events| :: HasResult(after, i, n) <==> HasResult(events, i, n))
            && (HasResult(after, i, |after|) <==>
                HasResult(events, i, |events|) || e == ToolResult(events[i].toolUseId))
  {
    var after := events + [e];
    forall n | i < n <= |events|
      ensures HasResult(after, i, n) <==> HasResult(events, i, n)
    {
      assert forall k | i < k < n :: after[k] == events[k];
    }
    assert forall k | i < k < |events| :: after[k] == events[k];
    assert after[|events|] == e;
  }

  lemma UpAfter(events: seq<Event>, e: Event, i: nat)
    requires i < |events| && events[i].ToolUse?
    ensures IsUp(events + [e], i) <==>
            && IsUp(events, i)
            && (e.MemoryCaptured? ==> e.memory.toolUseId != events[i].toolUseId)
            && (e.StreamRestart? ==> HasResult(events, i, |events|))
  {
    hide HasResult;
    var after := events + [e];
    ResultAfter(events, e, i);
    assert after[|events|] == e && after[i] == events[i];
    assert forall j | i < j < |events| :: after[j] == events[j];
    assert forall j | i < j < |after| :: j == |events| || after[j] == events[j];
  }

  /** One more event does to the chips what it means for the tool uses so far. */
  lemma {:induction false} ChipsAfter(events: seq<Event>, e: Event, k: nat)
    requires k <= |events| && !e.ToolUse?
    ensures CallsAfter(Chips(events, k), e) == Chips(events + [e], k)
  {
    hide IsUp, HasResult, CallsAfter;
    var after := events + [e];
    if k == 0 {
      NoChips(e);
    } else {
      ChipsAfter(events, e, k - 1);
      assert after[k - 1] == events[k - 1];
      if events[k - 1].ToolUse? {
        ChipAfter(events, e, k - 1, Chips(events, k - 1));
      }
      assert Chips(events, k - 1) + [] == Chips(events, k - 1);
    }
  }

  lemma NoChips(e: Event)
    requires !e.ToolUse?
    ensures CallsAfter([], e) == []
  {
  }

  lemma {:induction false} ChipsBeforeUse(events: seq<Event>, e: Event, k: nat)
    requires k <= |events| && e.ToolUse?
    ensures Chips(events + [e], k) == Chips(events, k)
  {
    hide IsUp, HasResult;
    var after := events + [e];
    if k > 0 {
      ChipsBeforeUse(events, e, k - 1);
      assert after[k - 1] == events[k - 1];
      if events[k - 1].ToolUse? {
        ResultAfter(events, e, k - 1);
        UpAfter(events, e, k - 1);
      }
    }
  }

  lemma ChipsGrow(events: seq<Event>, e: Event)
    ensures Chips(events + [e], |events| + 1) == CallsAfter(Chips(events, |events|), e)
  {
    hide CallsAfter;
    var after, n := events + [e], |events|;
    assert after[n] == e;
    if e.ToolUse? {
      ChipsBeforeUse(events, e, n);
      assert IsUp(after, n) && !HasResult(after, n, |after|);
      UseAddsAChip(Chips(events, n), e);
    } else {
      ChipsAfter(events, e, n);
    }
  }

  lemma UseAddsAChip(calls: seq<ToolCall>, e: Event)
    requires e.ToolUse?
    ensures CallsAfter(calls, e) == calls + [ToolCall(e.toolUseId, e.name, false)]
  {
  }

  // ------------------------------------------------------------ the reasoning

  lemma RestartAfter(events: seq<Event>, e: Event, from: nat)
    requires from <= |events|
    ensures HasRestart(events + [e], from) <==> HasRestart(events, from) || e.StreamRestart?
  {
    var after := events + [e];
    assert after[|events|] == e && forall j | 0 <= j < |events| :: after[j] == events[j];
  }

  lemma {:induction false} ReasonedAfter(events: seq<Event>, e: Event, k: nat)
    requires k <= |events|
    ensures Reasoned(events + [e], k) == if e.StreamRestart? then "" else Reasoned(events, k)
  {
    hide HasRestart;
    if k > 0 {
      ReasonedAfter(events, e, k - 1);
      RestartAfter(events, e, k);
      assert (events + [e])[k - 1] == events[k - 1];
    }
  }

  lemma ReasoningGrows(events: seq<Event>, e: Event)
    ensures Reasoned(events + [e], |events| + 1) ==
              (if e.StreamRestart? then "" else Reasoned(events, |events|)) + if e.ReasoningDelta? then e.delta else ""
    ensures (exists i | 0 <= i < |events| + 1 :: (events + [e])[i].ReasoningDelta? && !HasRestart(events + [e], i + 1))
              <==>
              e.ReasoningDelta?
              || (!e.StreamRestart?
                  && exists i | 0 <= i < |events| :: events[i].ReasoningDelta? && !HasRestart(events, i + 1))
  {
    var after, n := events + [e], |events|;
    ReasonedAfter(events, e, n);
    assert after[n] == e && !HasRestart(after, n + 1);
    forall i | 0 <= i < n
      ensures after[i] == events[i]
      ensures HasRestart(after, i + 1) <==> HasRestart(events, i + 1) || e.StreamRestart?
    {
      RestartAfter(events, e, i + 1);
    }
  }

  // ------------------------------------------------------------ the fold of a turn

  lemma UpdatedShowsTheWork(m: Message, events: seq<Event>, e: Event, breakDue: bool)
    requires ShowsTheWork(m, events)
    ensures ShowsTheWork(Updated(m, e, breakDue), events + [e])
  {
    hide Chips, Reasoned, HasRestart, Opened;
    ChipsGrow(events, e);
    ReasoningGrows(events, e);
    assert (events + [e])[..|events|] == events;
    UpdatedCalls(m, e, breakDue);
  }

  lemma UpdatedCalls(m: Message, e: Event, breakDue: bool)
    ensures Updated(m, e, breakDue).toolCalls.GetOr([]) == CallsAfter(m.toolCalls.GetOr([]), e)
  {
    hide Opened;
  }

  lemma NothingVisible(events: seq<Event>)
    requires forall e | e in events :: !IsVisible(e)
    ensures ShowsTheWork(EMPTY_BUBBLE, events)
  {
    if events != [] {
      var n := |events| - 1;
      NothingVisible(events[..n]);
      assert events == events[..n] + [events[n]] && events[n] in events;
      UpdatedShowsTheWork(EMPTY_BUBBLE, events[..n], events[n], false);
    }
  }

  lemma {:induction false} FoldSnoc(c: Chat, events: seq<Event>, e: Event)
    ensures Fold(c, events + [e]) == Step(Fold(c, events), e)
    decreases |events|
  {
    hide Step;
    if events == [] {
      assert [] + [e] == [e] && [e][1..] == [];
    } else {
      assert (events + [e])[1..] == events[1..] + [e];
      FoldSnoc(Step(c, events[0]), events[1..], e);
    }
  }

  /** Whatever came in a turn, its bubble shows the work that its events did. */
  lemma {:induction false} TurnShowsTheWork(start: Chat, events: seq<Event>)
    requires !start.mounted
    ensures var c := Fold(start, events);
            if c.mounted then HasBubble(c) && ShowsTheWork(Bubble(c), events)
            else forall e | e in events :: !IsVisible(e)
    decreases |events|
  {
    hide Step, ShowsTheWork, IsVisible, Updated;
    if events != [] {
      var n := |events| - 1;
      var before, e := events[..n], events[n];
      assert events == before + [e];
      TurnShowsTheWork(start, before);
      FoldSnoc(start, before, e);
      var c := Fold(start, before);
      if c.mounted || IsVisible(e) {
        if !c.mounted {
          NothingVisible(before);
        }
        MountedWork(c, before, e);
      } else {
        StaysUnmounted(c, e);
      }
    }
  }

  lemma StaysUnmounted(c: Chat, e: Event)
    requires !c.mounted && !IsVisible(e)
    ensures !Step(c, e).mounted
  {
  }

  lemma MountedWork(c: Chat, before: seq<Event>, e: Event)
    requires if c.mounted then HasBubble(c) && ShowsTheWork(Bubble(c), before)
             else IsVisible(e) && ShowsTheWork(EMPTY_BUBBLE, before)
    ensures HasBubble(Step(c, e)) && ShowsTheWork(Bubble(Step(c, e)), before + [e])
  {
    hide ShowsTheWork, Updated;
    var m := Mount(c);
    UpdatedShowsTheWork(Bubble(m), before, e, m.breakBeforeNextText);
    UpdatedIsAssistant(Bubble(m), e, m.breakBeforeNextText);
    StepMessages(c, e);
    if !IsVisible(e) {
      NothingToUpdate(c.messages, e, m.breakBeforeNextText);
    }
  }

  // ------------------------------------------------------------ every way to render

  /** The same but for the text of the bubble and whether a break is due. */
  ghost predicate AgreeButForText(a: Chat, b: Chat) {
    && a.(messages := b.messages, breakBeforeNextText := b.breakBeforeNextText) == b
    && if a.mounted then SameButText(a.messages, b.messages) && LastIsAssistant(a.messages)
       else a.messages == b.messages
  }

  lemma StepAgrees(a: Chat, b: Chat, e: Event)
    requires AgreeButForText(a, b)
    ensures AgreeButForText(Step(a, e), Step(b, e))
  {
    hide Updated, Opened, SameButText;
    var x, y := Mount(a), Mount(b);
    StepMessages(a, e);
    StepMessages(b, e);
    NotesAgree(a, b, e);
    if IsVisible(e) {
      if !a.mounted {
        OneMoreBubble(a.messages);
      }
      BreakShowsOnce(x.messages, y.messages, x.breakBeforeNextText, y.breakBeforeNextText, UpdateBubble(e));
      AssistantBoth(x.messages, y.messages);
    }
  }

  lemma OneMoreBubble(messages: seq<Message>)
    ensures SameButText(messages + [EMPTY_BUBBLE], messages + [EMPTY_BUBBLE])
    ensures LastIsAssistant(messages + [EMPTY_BUBBLE])
  {
  }

  lemma AssistantBoth(a: seq<Message>, b: seq<Message>)
    requires SameButText(a, b) && LastIsAssistant(a)
    ensures LastIsAssistant(b)
  {
  }

  lemma NotesAgree(a: Chat, b: Chat, e: Event)
    requires a.(messages := b.messages, breakBeforeNextText := b.breakBeforeNextText) == b
    ensures var x, y := Step(a, e), Step(b, e);
            x.(messages := y.messages, breakBeforeNextText := y.breakBeforeNextText) == y
  {
    hide BreakAfter, UpdateLastAssistant;
  }

  lemma ShownIsOrdered(l: Live)
    requires IsLive(l)
    ensures l.chat.mounted ==> LastIsAssistant(Shown(l).messages)
  {
    hide Run;
    if l.chat.mounted {
      BubbleStays(l.chat.messages, l.chat.breakBeforeNextText, l.pending);
    }
  }

  lemma HandledAgrees(l: Live, e: Event)
    requires IsLive(l)
    ensures AgreeButForText(Shown(Handled(l, e)), Step(Shown(l), e))
  {
    hide Run, RunOne, Updated, UpdateLastAssistant, IsOrdered, TextWaits, SameButText;
    HandledIsStepExactlyWhen(l, e);
    ShownIsOrdered(Handled(l, e));
    if WritesBreak(e) && TextWaits(l.pending) {
      var c, u := l.chat, UpdateBubble(e);
      var due, written := c.breakBeforeNextText, BreakWritten(c.breakBeforeNextText, e);
      TextMeansMounted(l);
      var (before, left) := Run(c.messages, due, l.pending);
      var (mid, kept) := Run(c.messages, written, l.pending);
      RunsAgreeButForText(c.messages, written, due, l.pending);
      BubbleStays(c.messages, written, l.pending);
      BubbleStays(c.messages, due, l.pending);
      RunSnoc(c.messages, written, l.pending, u);
      BreakShowsOnce(mid, before, kept, left, u);
      UpdateOfBubble(before, left, e);
    } else {
      SameIsSame(Shown(Handled(l, e)).messages);
    }
  }

  lemma TextMeansMounted(l: Live)
    requires IsLive(l) && TextWaits(l.pending)
    ensures l.chat.mounted && IsOrdered(l.chat.messages, l.pending)
  {
  }

  lemma SameIsSame(messages: seq<Message>)
    ensures messages != [] ==> SameButText(messages, messages)
  {
  }

  lemma AgreementChains(a: Chat, b: Chat, c: Chat)
    requires AgreeButForText(a, b) && AgreeButForText(b, c)
    ensures AgreeButForText(a, c)
  {
  }

  /** Whenever React renders, what is shown agrees with the fold of the events in all but the text. */
  lemma {:induction false} ConsumeAgrees(l: Live, c: Chat, events: seq<Event>, renders: nat -> bool)
    requires IsLive(l) && AgreeButForText(Shown(l), c)
    ensures AgreeButForText(Shown(Consume(l, events, renders)), Fold(c, events))
    decreases |events|
  {
    hide Shown, Step, Handled, Rendered, AgreeButForText, IsLive;
    if events != [] {
      var e := events[0];
      HandledAgrees(l, e);
      NextIsStepExactlyWhen(l, e, renders);
      StaysLive(l, e);
      RenderingShowsTheSame(Handled(l, e));
      StepAgrees(Shown(l), c, e);
      AgreementChains(Shown(Next(l, e, renders)), Step(Shown(l), e), Step(c, e));
      ConsumeAgrees(Next(l, e, renders), Step(c, e), events[1..], renders);
    }
  }

  /**
   However React renders, a turn leaves every earlier message alone, mounts its bubble exactly when a visible event
   came, and the bubble shows the work that the events did: chips, reasoning, staged operations and memories.
   */
  lemma EveryRenderingShowsTheWork(start: Chat, events: seq<Event>, renders: nat -> bool)
    requires !start.mounted
    ensures var shown := Shown(Consume(Live(start, [], 0), events, renders));
            && (shown.mounted <==> exists e | e in events :: IsVisible(e))
            && (!shown.mounted ==> shown.messages == start.messages)
            && (shown.mounted ==>
                  && |shown.messages| == |start.messages| + 1
                  && shown.messages[..|start.messages|] == start.messages
                  && ShowsTheWork(shown.messages[|start.messages|], events))
  {
    hide Consume, Step, Run, Fold, Chips, Reasoned, StagedOperations, Memories, IsVisible;
    var l := Live(start, [], 0);
    NothingShown(start);
    AgreesWithItself(start);
    ConsumeAgrees(l, start, events, renders);
    TurnFrame(start, events, start.messages);
    TurnShowsTheWork(start, events);
  }

  lemma AgreesWithItself(c: Chat)
    requires !c.mounted
    ensures AgreeButForText(c, c)
  {
  }

  // ------------------------------------------------------------ the notices

  /** An event that settles whether the notice of a retry is up. */
  predicate SettlesRetry(e: Event) {
    e.StreamRestart? || e.TextDelta? || e.ErrorEvent? || e.TurnComplete?
  }

  /** The flags and notices that a turn's events leave, said of the list of events alone. */
  ghost predicate NotesTheTurn(c: Chat, start: Chat, events: seq<Event>) {
    && (c.sawTerminalEvent <==>
        start.sawTerminalEvent || exists i | 0 <= i < |events| :: events[i].TurnComplete? || events[i].ErrorEvent?)
    && (forall i | 0 <= i < |events| && events[i].ErrorEvent? && (forall j | i < j < |events| :: !events[j].ErrorEvent?)
          :: c.errorMessage == Some(events[i].message))
    && ((forall i | 0 <= i < |events| :: !events[i].ErrorEvent?) ==> c.errorMessage == start.errorMessage)
    && (forall i | 0 <= i < |events| && events[i].Conversation?
          && (forall j | i < j < |events| :: !events[j].Conversation?)
          :: c.conversationId == Some(events[i].conversationId))
    && ((forall i | 0 <= i < |events| :: !events[i].Conversation?) ==> c.conversationId == start.conversationId)
    && (forall i | 0 <= i < |events| && SettlesRetry(events[i])
          && (forall j | i < j < |events| :: !SettlesRetry(events[j]))
          :: c.retryNotice == events[i].StreamRestart?)
    && ((forall i | 0 <= i < |events| :: !SettlesRetry(events[i])) ==> c.retryNotice == start.retryNotice)
  }

  lemma {:induction false} TurnIsNoted(start: Chat, events: seq<Event>)
    ensures NotesTheTurn(Fold(start, events), start, events)
    decreases |events|
  {
    hide Step, NotesTheTurn;
    if events == [] {
      NothingNoted(start);
    } else {
      var n := |events| - 1;
      assert events == events[..n] + [events[n]];
      TurnIsNoted(start, events[..n]);
      FoldSnoc(start, events[..n], events[n]);
      OneMoreNoted(Fold(start, events[..n]), start, events[..n], events[n]);
    }
  }

  lemma NothingNoted(start: Chat)
    ensures NotesTheTurn(start, start, [])
  {
  }

  lemma OneMoreNoted(c: Chat, start: Chat, events: seq<Event>, e: Event)
    requires NotesTheTurn(c, start, events)
    ensures NotesTheTurn(Step(c, e), start, events + [e])
  {
    hide UpdateLastAssistant, BreakAfter;
    var after, n := events + [e], |events|;
    assert after[n] == e && forall i | 0 <= i < n :: after[i] == events[i];
    assert forall i | 0 <= i < |after| :: i == n || after[i] == events[i];
  }

  /**
   However React renders, a turn ends with the notices its events leave. A reader that failed shows its error, and a
   stream that closed without a terminal event that the connection was lost, each unless the user stopped the turn.
   */
  lemma EveryTurnEndsNoted(start: Chat, events: seq<Event>, renders: nat -> bool, ending: Ending, aborted: bool)
    requires !start.mounted
    ensures var shown := Shown(Consume(Live(start, [], 0), events, renders));
            var end := Ended(shown, ending, aborted);
            && NotesTheTurn(shown, start, events) && end.(errorMessage := shown.errorMessage) == shown
            && end.errorMessage ==
                 (if !aborted && ending.Failed? then Some(ending.message)
                  else if !aborted && !start.sawTerminalEvent
                          && forall e | e in events :: !e.TurnComplete? && !e.ErrorEvent?
                  then Some("Anslutningen bröts innan svaret blev klart. Försök igen.")
                  else shown.errorMessage)
  {
    hide Consume, Step, Run, Fold;
    NothingShown(start);
    AgreesWithItself(start);
    ConsumeAgrees(Live(start, [], 0), start, events, renders);
    TurnIsNoted(start, events);
    SameNotes(Shown(Consume(Live(start, [], 0), events, renders)), Fold(start, events), start, events);
  }

  lemma SameNotes(a: Chat, b: Chat, start: Chat, events: seq<Event>)
    requires AgreeButForText(a, b) && NotesTheTurn(b, start, events)
    ensures NotesTheTurn(a, start, events)
  {
  }
}
