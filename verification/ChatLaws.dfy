/** What the events of a stream mean in order, over whole turns: the fold that a calm turn shows. */
module ChatLaws {
  import opened Wrappers
  import opened ChatStream

  // ------------------------------------------------------------ the frame of a turn

  /** The turn added to the earlier messages nothing, or exactly one assistant bubble at the end. */
  ghost predicate IsFramed(earlier: seq<Message>, c: Chat) {
    if c.mounted then
      |c.messages| == |earlier| + 1 && c.messages[..|earlier|] == earlier && c.messages[|earlier|].role == Assistant
    else
      c.messages == earlier
  }

  lemma {:induction false} TurnFrame(c: Chat, events: seq<Event>, earlier: seq<Message>)
    requires IsFramed(earlier, c)
    ensures IsFramed(earlier, Fold(c, events))
    ensures Fold(c, events).mounted <==> c.mounted || exists e | e in events :: IsVisible(e)
    decreases |events|
  {
    hide Step, IsFramed;
    if events != [] {
      var e, rest := events[0], events[1..];
      StepIsFramed(c, e, earlier);
      TurnFrame(Step(c, e), rest, earlier);
      assert forall x :: x in events <==> x == e || x in rest by {
        assert events == [e] + rest;
      }
    }
  }

  lemma StepIsFramed(c: Chat, e: Event, earlier: seq<Message>)
    requires IsFramed(earlier, c)
    ensures IsFramed(earlier, Step(c, e)) && (Step(c, e).mounted <==> c.mounted || IsVisible(e))
  {
    hide Noted, Updated;
    StepMessages(c, e);
    if IsVisible(e) {
      var m := Mount(c);
      var n := |m.messages| - 1;
      assert m.messages[..n] == earlier && LastIsAssistant(m.messages);
      UpdatedIsAssistant(m.messages[n], e, m.breakBeforeNextText);
    }
  }

  lemma UpdatedIsAssistant(m: Message, e: Event, breakDue: bool)
    ensures Updated(m, e, breakDue).role == m.role
  {
    hide Opened, Completed, MapCalls, WithoutCall;
  }

  // ------------------------------------------------------------ splitting a delta

  function TextDeltas(pieces: seq<string>): (events: seq<Event>)
    ensures |events| == |pieces|
  {
    if pieces == [] then [] else [TextDelta(pieces[0])] + TextDeltas(pieces[1..])
  }

  /** A text cut into deltas, the first of them non-empty, has the effect of the whole text in one delta. */
  lemma {:induction false} DeltaRefinement(c: Chat, pieces: seq<string>)
    requires pieces != [] && pieces[0] != ""
    ensures Fold(c, TextDeltas(pieces)) == Step(c, TextDelta(Flatten(pieces)))
    decreases |pieces|
  {
    hide Step;
    var a, others := pieces[0], pieces[1..];
    assert pieces == [a] + others;
    DeltasCons(a, others);
    if others == [] {
      FoldTwo(c, TextDelta(a), TextDelta(a), []);
      assert TextDeltas(others) == [] && Flatten(others) == "" && a + "" == a;
    } else {
      var b, rest := others[0], others[1..];
      assert others == [b] + rest;
      DeltasCons(b, rest);
      DeltasCons(a + b, rest);
      FoldTwo(c, TextDelta(a), TextDelta(b), TextDeltas(rest));
      FoldTwo(c, TextDelta(a + b), TextDelta(a + b), TextDeltas(rest));
      TwoDeltas(c, a, b);
      DeltaRefinement(c, [a + b] + rest);
      Regroup(a, b, Flatten(rest));
    }
  }

  lemma DeltasCons(a: string, rest: seq<string>)
    ensures TextDeltas([a] + rest) == [TextDelta(a)] + TextDeltas(rest)
    ensures Flatten([a] + rest) == a + Flatten(rest)
  {
    assert ([a] + rest)[1..] == rest;
  }

  lemma FoldTwo(c: Chat, x: Event, y: Event, rest: seq<Event>)
    ensures Fold(c, [x] + rest) == Fold(Step(c, x), rest)
    ensures Fold(c, [x] + ([y] + rest)) == Fold(Step(Step(c, x), y), rest)
  {
    hide Step;
    assert ([x] + rest)[1..] == rest && ([y] + rest)[1..] == rest;
    assert ([x] + ([y] + rest))[1..] == [y] + rest;
  }

  lemma StepOnText(c: Chat, delta: string)
    ensures var m := Mount(c);
            Step(c, TextDelta(delta)) ==
              if m.messages == [] || Bubble(m).role != Assistant then m.(retryNotice := false)
              else
                var shown := Opened(Bubble(m).text, delta, m.breakBeforeNextText);
                m.(messages := m.messages[..|m.messages| - 1] + [Bubble(m).(text := Bubble(m).text + shown)],
                   breakBeforeNextText := false, retryNotice := false)
  {
  }

  /** A second delta glues on without a break: the break is used up by the first. */
  lemma TwoDeltas(c: Chat, a: string, b: string)
    requires a != ""
    ensures Step(Step(c, TextDelta(a)), TextDelta(b)) == Step(c, TextDelta(a + b))
  {
    hide Step;
    StepOnText(c, a);
    StepOnText(c, a + b);
    var m, one := Mount(c), Step(c, TextDelta(a));
    StepOnText(one, b);
    assert Mount(one) == one;
    if m.messages != [] && Bubble(m).role == Assistant {
      OpenedOnce(Bubble(m).text, a, b, m.breakBeforeNextText);
      assert one.messages[..|one.messages| - 1] == m.messages[..|m.messages| - 1];
    }
  }

  lemma OpenedOnce(text: string, a: string, b: string, breakDue: bool)
    requires a != ""
    ensures (text + Opened(text, a, breakDue)) + b == text + Opened(text, a + b, breakDue)
  {
    assert (a + b)[0] == a[0];
  }

  /** The first piece has to be non-empty: an empty one uses up the break that a leading space would have avoided. */
  lemma EmptyDeltaBreaksTheText()
    ensures var c := Chat([Message(Assistant, "a", None, None, None, None)], true, true, false, false, None, None);
            Fold(c, TextDeltas(["", " b"])) != Step(c, TextDelta(Flatten(["", " b"])))
  {
    var c := Chat([Message(Assistant, "a", None, None, None, None)], true, true, false, false, None, None);
    assert Flatten([" b"]) == " b" && ["", " b"][1..] == [" b"];
    var whole := Step(c, TextDelta(" b"));
    assert whole.messages[0].text == "a b";
    var one := Step(c, TextDelta(""));
    assert one.messages[0].text == "a\n\n";
    var two := Step(one, TextDelta(" b"));
    assert two.messages[0].text == "a\n\n b";
    assert TextDeltas(["", " b"]) == [TextDelta(""), TextDelta(" b")];
    assert [TextDelta(""), TextDelta(" b")][1..] == [TextDelta(" b")];
    assert |whole.messages[0].text| == 3 && |two.messages[0].text| == 5;
  }

  /** Once no break is due, deltas only append. */
  lemma {:induction false} DeltasAppend(c: Chat, pieces: seq<string>)
    requires HasBubble(c) && !c.breakBeforeNextText && !c.retryNotice
    ensures Fold(c, TextDeltas(pieces)) == WithText(c, Bubble(c).text + Flatten(pieces))
    decreases |pieces|
  {
    hide Step;
    if pieces == [] {
      assert Bubble(c).text + "" == Bubble(c).text;
      assert c.messages == c.messages[..|c.messages| - 1] + [Bubble(c)];
    } else {
      var a, rest := pieces[0], pieces[1..];
      assert pieces == [a] + rest;
      DeltasCons(a, rest);
      FoldTwo(c, TextDelta(a), TextDelta(a), TextDeltas(rest));
      StepOnText(c, a);
      var one := Step(c, TextDelta(a));
      assert one == WithText(c, Bubble(c).text + a);
      DeltasAppend(one, rest);
      Regroup(Bubble(c).text, a, Flatten(rest));
      assert one.messages[..|one.messages| - 1] == c.messages[..|c.messages| - 1];
    }
  }

  function WithText(c: Chat, text: string): Chat
    requires c.messages != []
  {
    c.(messages := c.messages[..|c.messages| - 1] + [Bubble(c).(text := text)])
  }

  lemma DeltaOnBubble(c: Chat, delta: string)
    requires HasBubble(Mount(c))
    ensures var m := Mount(c);
            Step(c, TextDelta(delta)) ==
              WithText(m, Bubble(m).text + Opened(Bubble(m).text, delta, m.breakBeforeNextText))
                .(breakBeforeNextText := false, retryNotice := false)
  {
    StepOnText(c, delta);
  }

  /** What all the deltas of a non-empty list append when the first of them is empty. */
  lemma EmptyDeltaFirst(c: Chat, rest: seq<string>)
    requires HasBubble(Mount(c))
    ensures var m := Mount(c);
            var broken := Bubble(m).text + Opened(Bubble(m).text, "", m.breakBeforeNextText);
            Fold(c, TextDeltas([""] + rest)) ==
              WithText(m, broken + Flatten(rest)).(breakBeforeNextText := false, retryNotice := false)
  {
    hide Step;
    var m := Mount(c);
    DeltasCons("", rest);
    FoldTwo(c, TextDelta(""), TextDelta(""), TextDeltas(rest));
    DeltaOnBubble(c, "");
    var one := Step(c, TextDelta(""));
    assert one.messages[..|one.messages| - 1] == m.messages[..|m.messages| - 1];
    DeltasAppend(one, rest);
  }

  /**
   A text cut into deltas has the effect of the whole text in one delta, exactly when the first piece is not empty,
   or no break can be inserted, or the text does not start with white space.
   */
  lemma DeltasGlueExactlyWhen(c: Chat, pieces: seq<string>)
    requires HasBubble(Mount(c)) && pieces != []
    ensures var m, whole := Mount(c), Flatten(pieces);
            Fold(c, TextDeltas(pieces)) == Step(c, TextDelta(whole)) <==>
            || pieces[0] != ""
            || !m.breakBeforeNextText || Bubble(m).text == "" || EndsWithSpace(Bubble(m).text)
            || !StartsWithSpace(whole)
  {
    hide Step;
    if pieces[0] != "" {
      DeltaRefinement(c, pieces);
    } else {
      var m, rest := Mount(c), pieces[1..];
      var text := Bubble(m).text;
      assert pieces == [""] + rest;
      DeltasCons("", rest);
      assert Flatten(pieces) == Flatten(rest);
      EmptyDeltaFirst(c, rest);
      DeltaOnBubble(c, Flatten(rest));
      var broken := text + Opened(text, "", m.breakBeforeNextText);
      var whole := text + Opened(text, Flatten(rest), m.breakBeforeNextText);
      BreakOnce(text, Flatten(rest), m.breakBeforeNextText);
      if broken + Flatten(rest) != whole {
        TextsDiffer(m, broken + Flatten(rest), whole);
      }
    }
  }

  lemma BreakOnce(text: string, rest: string, breakDue: bool)
    ensures (text + Opened(text, "", breakDue)) + rest == text + Opened(text, rest, breakDue) <==>
            !breakDue || text == "" || EndsWithSpace(text) || !StartsWithSpace(rest)
  {
    assert text + "" == text;
    assert (text + "\n\n") + rest == text + ("\n\n" + rest);
    assert |(text + "\n\n") + rest| != |text + rest|;
  }

  lemma TextsDiffer(m: Chat, a: string, b: string)
    requires m.messages != [] && a != b
    ensures WithText(m, a).(breakBeforeNextText := false, retryNotice := false) !=
            WithText(m, b).(breakBeforeNextText := false, retryNotice := false)
  {
    var n := |m.messages| - 1;
    assert WithText(m, a).messages[n].text == a && WithText(m, b).messages[n].text == b;
  }

  // ------------------------------------------------------------ restarting a dead attempt

  /** Events a model stream can have sent before it died. */
  predicate IsDeadEvent(e: Event) {
    e.TextDelta? || e.ReasoningDelta? || e.ToolUse?
  }

  /** The assistant bubble of a turn in progress. */
  function Bubble(c: Chat): Message
    requires c.messages != []
  {
    c.messages[|c.messages| - 1]
  }

  ghost predicate HasBubble(c: Chat) {
    c.mounted && c.messages != [] && Bubble(c).role == Assistant
  }

  lemma StepOnBubble(c: Chat, e: Event)
    requires HasBubble(c)
    ensures HasBubble(Step(c, e))
    ensures Step(c, e).messages[..|Step(c, e).messages| - 1] == c.messages[..|c.messages| - 1]
    ensures Bubble(Step(c, e)) == Updated(Bubble(c), e, c.breakBeforeNextText)
  {
  }

  /** Between two iterations: the bubble is up and every chip is completed. */
  ghost predicate IsBoundary(c: Chat) {
    HasBubble(c) && forall call | call in Bubble(c).toolCalls.GetOr([]) :: call.completed
  }

  /** The messages as seen, apart from the reasoning. */
  ghost predicate LooksAlike(a: Chat, b: Chat) {
    && HasBubble(a) && HasBubble(b)
    && a.messages[..|a.messages| - 1] == b.messages[..|b.messages| - 1]
    && Bubble(a).text == Bubble(b).text
    && Bubble(a).toolCalls.GetOr([]) == Bubble(b).toolCalls.GetOr([])
    && Bubble(a).staged == Bubble(b).staged && Bubble(a).memoryEvents == Bubble(b).memoryEvents
  }

  /** Alike, and a difference in the pending break cannot show. */
  ghost predicate Simulates(a: Chat, b: Chat) {
    && LooksAlike(a, b)
    && (a.breakBeforeNextText == b.breakBeforeNextText || Bubble(a).text == "" || EndsWithSpace(Bubble(a).text))
  }

  lemma StepKeepsSimulation(a: Chat, b: Chat, e: Event)
    requires Simulates(a, b)
    ensures Simulates(Step(a, e), Step(b, e))
  {
    StepOnBubble(a, e);
    StepOnBubble(b, e);
  }

  lemma {:induction false} FoldKeepsSimulation(a: Chat, b: Chat, events: seq<Event>)
    requires Simulates(a, b)
    ensures Simulates(Fold(a, events), Fold(b, events))
    decreases |events|
  {
    if events != [] {
      StepKeepsSimulation(a, b, events[0]);
      FoldKeepsSimulation(Step(a, events[0]), Step(b, events[0]), events[1..]);
    }
  }

  lemma {:induction false} CompletedAppend(calls: seq<ToolCall>, call: ToolCall)
    ensures Completed(calls + [call]) == Completed(calls) + (if call.completed then [call] else [])
  {
    if calls != [] {
      assert (calls + [call])[1..] == calls[1..] + [call];
      CompletedAppend(calls[1..], call);
    }
  }

  lemma {:induction false} AllCompleted(calls: seq<ToolCall>)
    ensures Completed(calls) == calls <==> forall call | call in calls :: call.completed
    ensures |Completed(calls)| <= |calls|
  {
    if calls != [] {
      AllCompleted(calls[1..]);
      assert calls == [calls[0]] + calls[1..];
      if calls[0].completed {
        assert Completed(calls)[1..] == Completed(calls[1..]);
      }
    }
  }

  /** What a dead attempt can have done to the bubble: text, reasoning and chips that never completed. */
  ghost predicate IsDraftOf(a: Chat, b: Chat) {
    && HasBubble(a) && HasBubble(b)
    && a.messages[..|a.messages| - 1] == b.messages[..|b.messages| - 1]
    && Completed(Bubble(a).toolCalls.GetOr([])) == Completed(Bubble(b).toolCalls.GetOr([]))
    && Bubble(a).staged == Bubble(b).staged && Bubble(a).memoryEvents == Bubble(b).memoryEvents
  }

  lemma {:induction false} DeadAttemptIsADraft(a: Chat, b: Chat, dead: seq<Event>)
    requires IsDraftOf(a, b) && forall e | e in dead :: IsDeadEvent(e)
    ensures IsDraftOf(Fold(a, dead), b)
    decreases |dead|
  {
    if dead != [] {
      var e := dead[0];
      assert e in dead;
      StepOnBubble(a, e);
      if e.ToolUse? {
        CompletedAppend(Bubble(a).toolCalls.GetOr([]), ToolCall(e.toolUseId, e.name, false));
      }
      DeadAttemptIsADraft(Step(a, e), b, dead[1..]);
    }
  }

  /** The state after a dead attempt that the server restarts from its snapshot of the text. */
  function Restarted(c: Chat, dead: seq<Event>, snapshot: string): Chat {
    Step(Fold(c, dead), StreamRestart(Some(snapshot)))
  }

  lemma RestartedBubble(c: Chat, dead: seq<Event>, snapshot: string)
    requires HasBubble(c) && forall e | e in dead :: IsDeadEvent(e)
    ensures var r := Restarted(c, dead, snapshot);
            && HasBubble(r) && Bubble(r).text == snapshot && Bubble(r).reasoning == None
            && r.breakBeforeNextText == (snapshot != "")
            && (LooksAlike(r, c) <==> snapshot == Bubble(c).text && IsBoundary(c))
  {
    AllCompleted(Bubble(c).toolCalls.GetOr([]));
    DeadAttemptIsADraft(c, c, dead);
    StepOnBubble(Fold(c, dead), StreamRestart(Some(snapshot)));
  }

  /** The retried text opens its own paragraph at the boundary just as the first attempt's would have. */
  predicate BreakIsMoot(c: Chat)
    requires c.messages != []
  {
    c.breakBeforeNextText || Bubble(c).text == "" || EndsWithSpace(Bubble(c).text)
  }

  /** For every continuation, the restarted turn shows what it would show had the attempt never been made. */
  ghost predicate IsUndone(c: Chat, dead: seq<Event>, snapshot: string) {
    forall retry :: LooksAlike(Fold(Restarted(c, dead, snapshot), retry), Fold(c, retry))
  }

  /**
   Restarting from a snapshot makes the dead attempt never have happened, for every continuation, exactly when every
   chip was completed, the snapshot is the text then shown, and a paragraph break was due or cannot matter.
   */
  lemma RestartSimulation(c: Chat, dead: seq<Event>, snapshot: string)
    requires HasBubble(c) && forall e | e in dead :: IsDeadEvent(e)
    ensures IsUndone(c, dead, snapshot) <==> IsBoundary(c) && snapshot == Bubble(c).text && BreakIsMoot(c)
  {
    hide Step;
    RestartedBubble(c, dead, snapshot);
    var r := Restarted(c, dead, snapshot);
    if snapshot != Bubble(c).text || !IsBoundary(c) {
      assert Fold(r, []) == r && Fold(c, []) == c;
      assert !LooksAlike(Fold(r, []), Fold(c, []));
    } else if BreakIsMoot(c) {
      forall retry
        ensures LooksAlike(Fold(r, retry), Fold(c, retry))
      {
        FoldKeepsSimulation(r, c, retry);
      }
    } else {
      LostBreakShows(r, c);
      assert !LooksAlike(Fold(r, [TextDelta("x")]), Fold(c, [TextDelta("x")]));
    }
  }

  // ------------------------------------------------------------ the snapshot the server sends

  /** The text of the turn as the server accumulates it: its raw deltas, taken back to a snapshot by a restart. */
  function RawText(raw: string, events: seq<Event>): string
    decreases |events|
  {
    if events == [] then raw
    else
      var e := events[0];
      RawText(if e.TextDelta? then raw + e.delta
              else if e.StreamRestart? then e.assistantText.GetOr("")
              else raw,
              events[1..])
  }

  /** The delta is shown opened by a paragraph break. */
  predicate IsOpened(c: Chat, e: Event) {
    && e.TextDelta?
    && Mount(c).messages != []
    && Opened(Bubble(Mount(c)).text, e.delta, Mount(c).breakBeforeNextText) != e.delta
  }

  /** How many deltas have been opened by a break since the text was last restarted. */
  function Openings(c: Chat, events: seq<Event>, n: nat): nat
    decreases |events|
  {
    if events == [] then n
    else
      var e := events[0];
      Openings(Step(c, e), events[1..], if e.StreamRestart? then 0 else if IsOpened(c, e) then n + 1 else n)
  }

  /** This turn's text as shown. */
  function ShownText(c: Chat): string {
    if c.mounted && c.messages != [] then Bubble(c).text else ""
  }

  ghost predicate IsInTurn(c: Chat) {
    c.mounted ==> HasBubble(c)
  }

  lemma StepInTurn(c: Chat, e: Event)
    requires IsInTurn(c)
    ensures IsInTurn(Step(c, e))
    ensures ShownText(Step(c, e)) ==
              if e.TextDelta? then
                ShownText(c) + Opened(ShownText(c), e.delta, c.breakBeforeNextText)
              else if e.StreamRestart? then e.assistantText.GetOr("")
              else ShownText(c)
  {
    hide Opened, Completed, MapCalls, WithoutCall, Noted, BreakAfter, Updated;
    MountInTurn(c);
    StepMessages(c, e);
    if IsVisible(e) {
      StepOfBubble(Mount(c), e);
    }
  }

  lemma MountInTurn(c: Chat)
    requires IsInTurn(c)
    ensures HasBubble(Mount(c)) && Bubble(Mount(c)).text == ShownText(c)
    ensures Mount(c).breakBeforeNextText == c.breakBeforeNextText
  {
  }

  lemma StepMessages(c: Chat, e: Event)
    ensures var m := if IsVisible(e) then Mount(c) else c;
            && Step(c, e).mounted == m.mounted
            && Step(c, e).messages ==
                 if IsVisible(e) then UpdateLastAssistant(m.messages, e, m.breakBeforeNextText) else m.messages
  {
    hide UpdateLastAssistant, Mount;
  }

  lemma StepOfBubble(m: Chat, e: Event)
    requires HasBubble(m)
    ensures var after := UpdateLastAssistant(m.messages, e, m.breakBeforeNextText);
            && LastIsAssistant(after)
            && after[|after| - 1].text ==
                 (if e.TextDelta? then Bubble(m).text + Opened(Bubble(m).text, e.delta, m.breakBeforeNextText)
                  else if e.StreamRestart? then e.assistantText.GetOr("")
                  else Bubble(m).text)
  {
    hide Opened, Completed, MapCalls, WithoutCall;
  }

  lemma OpenedInTurn(c: Chat, e: Event)
    requires IsInTurn(c)
    ensures IsOpened(c, e) <==>
              e.TextDelta? && Opened(ShownText(c), e.delta, c.breakBeforeNextText) == "\n\n" + e.delta
  {
    MountInTurn(c);
    if e.TextDelta? {
      assert |"\n\n" + e.delta| == |e.delta| + 2;
    }
  }

  /** The text shown is the server's, two characters longer for every break inserted, and the same without any. */
  lemma {:induction false} ShownAgainstRaw(c: Chat, raw: string, n: nat, events: seq<Event>)
    requires IsInTurn(c) && |ShownText(c)| == |raw| + 2 * n && (n == 0 ==> ShownText(c) == raw)
    ensures var k, text := Openings(c, events, n), ShownText(Fold(c, events));
            && IsInTurn(Fold(c, events))
            && |text| == |RawText(raw, events)| + 2 * k && (k == 0 ==> text == RawText(raw, events))
    decreases |events|
  {
    hide Step, IsOpened, Opened;
    if events != [] {
      var e := events[0];
      StepInTurn(c, e);
      OpenedInTurn(c, e);
      if e.TextDelta? {
        DeltaIsOpenedOrNot(c, e);
      }
      var raw' := if e.TextDelta? then raw + e.delta else if e.StreamRestart? then e.assistantText.GetOr("") else raw;
      var n' := if e.StreamRestart? then 0 else if IsOpened(c, e) then n + 1 else n;
      ShownAgainstRaw(Step(c, e), raw', n', events[1..]);
    }
  }

  lemma DeltaIsOpenedOrNot(c: Chat, e: Event)
    requires IsInTurn(c) && e.TextDelta?
    ensures Opened(ShownText(c), e.delta, c.breakBeforeNextText) == if IsOpened(c, e) then "\n\n" + e.delta else e.delta
  {
    hide IsOpened, IsInTurn;
    OpenedInTurn(c, e);
  }

  /**
   The restart that the server sends in a turn: its snapshot is its own text. The dead attempt has never happened,
   exactly when every chip was completed, no delta of the text was opened by a break, and a break was due or cannot
   matter.
   */
  lemma RestartOfATurn(start: Chat, before: seq<Event>, dead: seq<Event>)
    requires !start.mounted && HasBubble(Fold(start, before)) && forall e | e in dead :: IsDeadEvent(e)
    ensures var c := Fold(start, before);
            IsUndone(c, dead, RawText("", before)) <==>
            IsBoundary(c) && Openings(start, before, 0) == 0 && BreakIsMoot(c)
  {
    hide Step;
    ShownAgainstRaw(start, "", 0, before);
    RestartSimulation(Fold(start, before), dead, RawText("", before));
  }

  lemma LostBreakShows(a: Chat, b: Chat)
    requires LooksAlike(a, b) && a.breakBeforeNextText && !b.breakBeforeNextText
    requires Bubble(a).text != "" && !EndsWithSpace(Bubble(a).text)
    ensures !LooksAlike(Fold(a, [TextDelta("x")]), Fold(b, [TextDelta("x")]))
  {
    hide Step;
    FoldTwo(a, TextDelta("x"), TextDelta("x"), []);
    FoldTwo(b, TextDelta("x"), TextDelta("x"), []);
    assert [TextDelta("x")] + [] == [TextDelta("x")];
    StepOnBubble(a, TextDelta("x"));
    StepOnBubble(b, TextDelta("x"));
    assert |Bubble(Step(a, TextDelta("x"))).text| == |Bubble(a).text| + 3;
    assert |Bubble(Step(b, TextDelta("x"))).text| == |Bubble(b).text| + 1;
  }

  /** Before the first visible event of a turn the bubble may as well be up already. */
  lemma MountingFirstChangesNothing(c: Chat, events: seq<Event>)
    requires events != [] && IsVisible(events[0])
    ensures Fold(Mount(c), events) == Fold(c, events)
  {
    assert Step(Mount(c), events[0]) == Step(c, events[0]);
  }

  /** An attempt that dies before the turn has shown anything leaves no more than the empty bubble. */
  lemma RestartAtTurnStart(c: Chat, dead: seq<Event>)
    requires !c.mounted && forall e | e in dead :: IsDeadEvent(e)
    ensures forall retry :: LooksAlike(Fold(Restarted(c, dead, ""), retry), Fold(Mount(c), retry))
  {
    var m := Mount(c);
    assert Bubble(m) == EMPTY_BUBBLE;
    if dead == [] {
      assert Step(c, StreamRestart(Some(""))) == Step(m, StreamRestart(Some("")));
    } else {
      assert dead[0] in dead;
      MountingFirstChangesNothing(c, dead);
    }
    RestartSimulation(m, dead, "");
    assert IsUndone(m, dead, "");
  }

  /** Text, a tool, more text, another tool: the break between the texts is on the screen, and not in the snapshot. */
  function TwoToolRounds(): seq<Event> {
    [TextDelta("A."), ToolUse("1", "t"), ToolResult("1"), TextDelta("B."), ToolUse("2", "t"), ToolResult("2")]
  }

  /** A restart after two rounds of tools takes the paragraph break out of the text that was shown before. */
  lemma RestartTakesOutABreak(start: Chat, dead: seq<Event>)
    requires !start.mounted && !start.breakBeforeNextText && forall e | e in dead :: IsDeadEvent(e)
    ensures var c := Fold(start, TwoToolRounds());
            && IsBoundary(c) && c.breakBeforeNextText
            && Bubble(c).text == "A.\n\nB." && RawText("", TwoToolRounds()) == "A.B."
            && Restarted(c, dead, "A.B.").messages != [] && Bubble(Restarted(c, dead, "A.B.")).text == "A.B."
            && !IsUndone(c, dead, "A.B.")
  {
    hide Step, Fold, RawText, TwoToolRounds, Restarted, IsUndone, LooksAlike, HasBubble;
    TwoRoundsShown(start);
    var c, shown, raw := Fold(start, TwoToolRounds()), "A.\n\nB.", "A.B.";
    assert |shown| != |raw|;
    OtherSnapshotShows(c, dead, raw);
  }

  lemma OtherSnapshotShows(c: Chat, dead: seq<Event>, snapshot: string)
    requires IsBoundary(c) && snapshot != Bubble(c).text && forall e | e in dead :: IsDeadEvent(e)
    ensures var r := Restarted(c, dead, snapshot); r.messages != [] && Bubble(r).text == snapshot
    ensures !IsUndone(c, dead, snapshot)
  {
    RestartedBubble(c, dead, snapshot);
    RestartSimulation(c, dead, snapshot);
  }

  lemma TwoRoundsShown(start: Chat)
    requires !start.mounted && !start.breakBeforeNextText
    ensures var c := Fold(start, TwoToolRounds());
            && IsBoundary(c) && c.breakBeforeNextText && Bubble(c).text == "A.\n\nB."
            && RawText("", TwoToolRounds()) == "A.B."
  {
    hide Step, Fold, RawText;
    var es := TwoToolRounds();
    FirstDelta(start);
    var c1 := Step(start, es[0]);
    OneRound(c1, "1");
    var c2 := Step(Step(c1, es[1]), es[2]);
    OneDelta(c2, "B.");
    OneRound(Step(c2, es[3]), "2");
    FoldSix(start, es);
    RawOfSix(es);
  }

  lemma FirstDelta(start: Chat)
    requires !start.mounted && !start.breakBeforeNextText
    ensures var r := Step(start, TextDelta("A.")); IsBoundary(r) && Bubble(r).text == "A."
  {
    assert Bubble(Mount(start)) == EMPTY_BUBBLE;
    DeltaOnBubble(start, "A.");
    assert "" + "A." == "A.";
  }

  /** A tool use and its result leave one more completed chip, and a break due. */
  lemma OneRound(c: Chat, id: string)
    requires IsBoundary(c)
    ensures var r := Step(Step(c, ToolUse(id, "t")), ToolResult(id));
            IsBoundary(r) && r.breakBeforeNextText && Bubble(r).text == Bubble(c).text
  {
    var u := Step(c, ToolUse(id, "t"));
    StepOnBubble(c, ToolUse(id, "t"));
    StepOnBubble(u, ToolResult(id));
    MapCompletes(Bubble(c).toolCalls.GetOr([]), ToolCall(id, "t", false));
  }

  lemma {:induction false} MapCompletes(calls: seq<ToolCall>, call: ToolCall)
    requires forall x | x in calls :: x.completed
    ensures forall x | x in MapCalls(calls + [call], call.id) :: x.completed
  {
    if calls != [] {
      assert (calls + [call])[1..] == calls[1..] + [call];
      MapCompletes(calls[1..], call);
    }
  }

  lemma OneDelta(c: Chat, delta: string)
    requires IsBoundary(c) && c.breakBeforeNextText && Bubble(c).text == "A." && delta == "B."
    ensures var r := Step(c, TextDelta(delta));
            IsBoundary(r) && !r.breakBeforeNextText && Bubble(r).text == "A.\n\nB."
  {
    StepOnBubble(c, TextDelta(delta));
    assert !EndsWithSpace("A.") && !StartsWithSpace("B.");
  }

  lemma FoldSix(c: Chat, es: seq<Event>)
    requires |es| == 6
    ensures Fold(c, es) == Step(Step(Step(Step(Step(Step(c, es[0]), es[1]), es[2]), es[3]), es[4]), es[5])
  {
    hide Step;
    FoldTwo(c, es[0], es[1], es[2..]);
    assert es == [es[0]] + ([es[1]] + es[2..]);
    var d := Step(Step(c, es[0]), es[1]);
    FoldTwo(d, es[2], es[3], es[4..]);
    assert es[2..] == [es[2]] + ([es[3]] + es[4..]);
    FoldTwo(Step(Step(d, es[2]), es[3]), es[4], es[5], []);
    assert es[4..] == [es[4]] + ([es[5]] + []);
  }

  lemma RawOfSix(es: seq<Event>)
    requires es == TwoToolRounds()
    ensures RawText("", es) == "A.B."
  {
    assert RawText("", es) == RawText("A.", es[1..]) == RawText("A.", es[1..][1..]);
    assert es[1..][1..] == es[2..];
    assert RawText("A.", es[2..]) == RawText("A.", es[2..][1..]) == RawText("A.B.", es[2..][1..][1..]);
    assert es[2..][1..][1..] == es[4..];
    assert RawText("A.B.", es[4..]) == RawText("A.B.", es[4..][1..]) == RawText("A.B.", es[4..][1..][1..]);
  }
}
