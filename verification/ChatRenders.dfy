/**
 What a turn shows, given that the updates of its messages wait for a render. The events handled never depend on the
 chunks; what is shown is the fold of the events exactly while no text waits when a later event writes the break.
 */
module ChatRenders {
  import opened Wrappers
  import opened ChatStream
  import opened ChatLaws

  /** The handler makes a paragraph break due. */
  predicate WritesBreak(e: Event) {
    e.ToolUse? || (e.StreamRestart? && e.assistantText.GetOr("") != "")
  }

  predicate IsText(u: Update) {
    u.UpdateBubble? && u.event.TextDelta?
  }

  predicate TextWaits(updates: seq<Update>) {
    exists u | u in updates :: IsText(u)
  }

  /** No text waits for a render when an event makes a break due. */
  predicate IsCalm(l: Live, events: seq<Event>, renders: nat -> bool)
    decreases |events|
  {
    events == [] ||
    (!(WritesBreak(events[0]) && TextWaits(l.pending)) && IsCalm(Next(l, events[0], renders), events[1..], renders))
  }

  predicate OnlyTouchesBubble(updates: seq<Update>) {
    forall u | u in updates :: u.UpdateBubble?
  }

  /** The bubble is up and the updates touch it, or adding it is the first of them. */
  predicate IsOrdered(messages: seq<Message>, updates: seq<Update>) {
    || (LastIsAssistant(messages) && OnlyTouchesBubble(updates))
    || (updates != [] && updates[0].AppendBubble? && OnlyTouchesBubble(updates[1..]))
  }

  ghost predicate IsLive(l: Live) {
    if l.chat.mounted then IsOrdered(l.chat.messages, l.pending) else l.pending == []
  }

  // ------------------------------------------------------------ running the waiting updates

  lemma {:induction false} RunConcat(messages: seq<Message>, due: bool, a: seq<Update>, b: seq<Update>)
    ensures var (next, left) := Run(messages, due, a); Run(messages, due, a + b) == Run(next, left, b)
    decreases |a|
  {
    hide RunOne;
    if a == [] {
      assert a + b == b;
    } else {
      assert (a + b)[1..] == a[1..] + b;
      var (next, left) := RunOne(messages, due, a[0]);
      RunConcat(next, left, a[1..], b);
    }
  }

  lemma RunSnoc(messages: seq<Message>, due: bool, updates: seq<Update>, u: Update)
    ensures var (next, left) := Run(messages, due, updates); Run(messages, due, updates + [u]) == RunOne(next, left, u)
  {
    hide RunOne;
    RunConcat(messages, due, updates, [u]);
    assert [u][1..] == [];
  }

  lemma FirstInOrder(messages: seq<Message>, due: bool, updates: seq<Update>)
    requires IsOrdered(messages, updates) && updates != []
    ensures LastIsAssistant(RunOne(messages, due, updates[0]).0) && OnlyTouchesBubble(updates[1..])
    ensures RunOne(messages, due, updates[0]).1 <==> due && !IsText(updates[0])
  {
  }

  /** An assistant bubble stays last. */
  lemma {:induction false} BubbleStays(messages: seq<Message>, due: bool, updates: seq<Update>)
    requires IsOrdered(messages, updates)
    ensures LastIsAssistant(Run(messages, due, updates).0)
    decreases |updates|
  {
    hide RunOne;
    if updates != [] {
      var (next, left) := RunOne(messages, due, updates[0]);
      FirstInOrder(messages, due, updates);
      BubbleStays(next, left, updates[1..]);
    }
  }

  /** Without a text among them, the updates neither read nor clear the break. */
  lemma {:induction false} OthersIgnoreTheBreak(messages: seq<Message>, due: bool, other: bool, updates: seq<Update>)
    requires !TextWaits(updates)
    ensures Run(messages, due, updates).1 == due
    ensures Run(messages, other, updates).0 == Run(messages, due, updates).0
    decreases |updates|
  {
    if updates != [] {
      var u := updates[0];
      assert !IsText(u);
      OneIgnoresTheBreak(messages, due, other, u);
      assert forall v | v in updates[1..] :: v in updates;
      OthersIgnoreTheBreak(RunOne(messages, due, u).0, due, other, updates[1..]);
    }
  }

  lemma OneIgnoresTheBreak(messages: seq<Message>, due: bool, other: bool, u: Update)
    requires !IsText(u)
    ensures RunOne(messages, due, u).1 == due && RunOne(messages, other, u) == (RunOne(messages, due, u).0, other)
  {
  }

  /** A text among them clears the break, and nothing after it sets it again. */
  lemma {:induction false} TextClearsTheBreak(messages: seq<Message>, due: bool, updates: seq<Update>)
    requires IsOrdered(messages, updates)
    ensures Run(messages, due, updates).1 <==> due && !TextWaits(updates)
    decreases |updates|
  {
    hide RunOne, IsText;
    if updates != [] {
      var (next, left) := RunOne(messages, due, updates[0]);
      FirstInOrder(messages, due, updates);
      assert forall u :: u in updates <==> u == updates[0] || u in updates[1..];
      TextClearsTheBreak(next, left, updates[1..]);
    }
  }

  /** The same messages, up to the text of the last one. */
  ghost predicate SameButText(a: seq<Message>, b: seq<Message>) {
    && |a| == |b| > 0
    && a[..|a| - 1] == b[..|b| - 1]
    && b[|b| - 1].(text := a[|a| - 1].text) == a[|a| - 1]
  }

  /** The break only ever shows in the text. */
  lemma {:induction false} BreakShowsInTheText(a: seq<Message>, b: seq<Message>, due: bool, other: bool,
                                               updates: seq<Update>)
    requires SameButText(a, b) && LastIsAssistant(a) && OnlyTouchesBubble(updates)
    ensures SameButText(Run(a, due, updates).0, Run(b, other, updates).0)
    decreases |updates|
  {
    hide RunOne, SameButText;
    if updates != [] {
      var u := updates[0];
      assert u in updates;
      BreakShowsOnce(a, b, due, other, u);
      BreakShowsInTheText(RunOne(a, due, u).0, RunOne(b, other, u).0, RunOne(a, due, u).1, RunOne(b, other, u).1,
                          updates[1..]);
    }
  }

  lemma BreakShowsOnce(a: seq<Message>, b: seq<Message>, due: bool, other: bool, u: Update)
    requires SameButText(a, b) && LastIsAssistant(a) && u.UpdateBubble?
    ensures SameButText(RunOne(a, due, u).0, RunOne(b, other, u).0) && LastIsAssistant(RunOne(a, due, u).0)
  {
    hide Opened, Completed, MapCalls, WithoutCall;
    var n := |a| - 1;
    var m, m' := Updated(a[n], u.event, due), Updated(b[n], u.event, other);
    assert m'.(text := m.text) == m;
    assert RunOne(a, due, u).0 == a[..n] + [m] && RunOne(b, other, u).0 == b[..n] + [m'];
  }

  /** Whatever the break was, the waiting updates lead to the same messages up to the last text. */
  lemma RunsAgreeButForText(messages: seq<Message>, due: bool, other: bool, updates: seq<Update>)
    requires IsOrdered(messages, updates)
    ensures SameButText(Run(messages, due, updates).0, Run(messages, other, updates).0)
  {
    hide Updated;
    if LastIsAssistant(messages) && OnlyTouchesBubble(updates) {
      BreakShowsInTheText(messages, messages, due, other, updates);
    } else {
      var bubbled := messages + [EMPTY_BUBBLE];
      BreakShowsInTheText(bubbled, bubbled, due, other, updates[1..]);
    }
  }

  // ------------------------------------------------------------ one event

  /** A restart overwrites the text, so it does not matter how the text came about. */
  lemma RestartForgetsTheText(a: seq<Message>, b: seq<Message>, e: Event)
    requires SameButText(a, b) && LastIsAssistant(a) && e.StreamRestart?
    ensures RunOne(a, false, UpdateBubble(e)) == RunOne(b, false, UpdateBubble(e))
  {
    hide Completed;
    var n := |a| - 1;
    assert Updated(a[n], e, false) == Updated(b[n], e, false);
  }

  /** The messages and the break that are due after one more update, as the fold has them. */
  lemma RunIsStepExactlyWhen(messages: seq<Message>, due: bool, updates: seq<Update>, e: Event)
    requires IsOrdered(messages, updates) && HasUpdate(e)
    ensures var (before, left) := Run(messages, due, updates);
            var after := Run(messages, BreakWritten(due, e), updates + [UpdateBubble(e)]);
            && LastIsAssistant(before)
            && (after == (UpdateLastAssistant(before, e, left),
                          if e.TextDelta? then false else BreakWritten(left, e))
                <==> !(WritesBreak(e) && TextWaits(updates)))
  {
    hide RunOne, Run, Updated, SameButText, IsOrdered;
    var u, written := UpdateBubble(e), BreakWritten(due, e);
    var (before, left) := Run(messages, due, updates);
    var (mid, kept) := Run(messages, written, updates);
    BubbleStays(messages, due, updates);
    BubbleStays(messages, written, updates);
    TextClearsTheBreak(messages, due, updates);
    TextClearsTheBreak(messages, written, updates);
    RunSnoc(messages, written, updates, u);
    UpdateOfBubble(mid, kept, e);
    UpdateOfBubble(before, left, e);
    if !TextWaits(updates) {
      OthersIgnoreTheBreak(messages, due, written, updates);
      BreakOnlyMattersToText(before, left, kept, e);
    } else if e.StreamRestart? {
      RunsAgreeButForText(messages, written, due, updates);
      RestartForgetsTheText(mid, before, e);
    }
  }

  lemma UpdateOfBubble(messages: seq<Message>, due: bool, e: Event)
    requires LastIsAssistant(messages)
    ensures RunOne(messages, due, UpdateBubble(e)) ==
              (UpdateLastAssistant(messages, e, due), due && !e.TextDelta?)
  {
    hide Updated;
  }

  lemma BreakOnlyMattersToText(messages: seq<Message>, due: bool, other: bool, e: Event)
    requires LastIsAssistant(messages) && (!e.TextDelta? || due == other)
    ensures UpdateLastAssistant(messages, e, due) == UpdateLastAssistant(messages, e, other)
  {
    hide Completed, MapCalls, WithoutCall;
  }

  /**
   Handling an event and rendering at once is a step of the fold, unless a waiting text finds the break it makes due.
   */
  lemma HandledIsStepExactlyWhen(l: Live, e: Event)
    requires IsLive(l)
    ensures Shown(Handled(l, e)) == Step(Shown(l), e) <==> !(WritesBreak(e) && TextWaits(l.pending))
    ensures IsLive(Handled(l, e))
  {
    hide Step, Shown, Handled, Run, IsLive;
    StaysLive(l, e);
    if !IsVisible(e) {
      InvisibleEvent(l, e);
    } else if !l.chat.mounted {
      FirstVisibleEvent(l, e);
    } else if HasUpdate(e) {
      UpdatingEvent(l, e);
    } else {
      SilentEvent(l, e);
    }
  }

  lemma StaysLive(l: Live, e: Event)
    requires IsLive(l)
    ensures IsLive(Handled(l, e))
  {
    var pending := Handled(l, e).pending;
    var added := if HasUpdate(e) then [UpdateBubble(e)] else [];
    if IsVisible(e) && !l.chat.mounted {
      assert pending == [AppendBubble] + added && pending[1..] == added;
    } else {
      assert pending == l.pending + added;
      assert l.pending != [] ==> pending[1..] == l.pending[1..] + added;
      assert OnlyTouchesBubble(added);
    }
  }

  lemma InvisibleEvent(l: Live, e: Event)
    requires !IsVisible(e)
    ensures Shown(Handled(l, e)) == Step(Shown(l), e)
  {
    hide Run;
    assert l.pending + [] == l.pending;
  }

  /** A visible event that only mounts the bubble finds it mounted. */
  lemma SilentEvent(l: Live, e: Event)
    requires IsLive(l) && l.chat.mounted && IsVisible(e) && !HasUpdate(e)
    ensures Shown(Handled(l, e)) == Step(Shown(l), e)
  {
    hide Run, Updated, Opened, UpdateLastAssistant, BreakAfter;
    assert l.pending + [] == l.pending;
    SilentNote(Shown(l), e);
    BubbleStays(l.chat.messages, l.chat.breakBeforeNextText, l.pending);
    NothingToUpdate(Shown(l).messages, e, Shown(l).breakBeforeNextText);
  }

  lemma SilentNote(c: Chat, e: Event)
    requires IsVisible(e) && !HasUpdate(e)
    ensures BreakAfter(c, e) == c.breakBeforeNextText
  {
  }

  lemma NothingToUpdate(messages: seq<Message>, e: Event, due: bool)
    requires LastIsAssistant(messages) && !HasUpdate(e)
    ensures UpdateLastAssistant(messages, e, due) == messages
  {
    var n := |messages| - 1;
    assert Updated(messages[n], e, due) == messages[n];
    assert messages[..n] + [messages[n]] == messages;
  }

  lemma UpdatingEvent(l: Live, e: Event)
    requires IsLive(l) && l.chat.mounted && HasUpdate(e)
    ensures Shown(Handled(l, e)) == Step(Shown(l), e) <==> !(WritesBreak(e) && TextWaits(l.pending))
  {
    hide Run, Updated, RunOne, TextWaits, UpdateLastAssistant;
    var c := l.chat;
    var pending := l.pending + [UpdateBubble(e)];
        RunIsStepExactlyWhen(c.messages, c.breakBeforeNextText, l.pending, e);
    var (before, left) := Run(c.messages, c.breakBeforeNextText, l.pending);
    var (after, due) := Run(c.messages, BreakWritten(c.breakBeforeNextText, e), pending);
    assert Shown(Handled(l, e)).messages == after && Shown(Handled(l, e)).breakBeforeNextText == due;
    assert Step(Shown(l), e).messages == UpdateLastAssistant(before, e, left);
    assert Step(Shown(l), e).breakBeforeNextText == if e.TextDelta? then false else BreakWritten(left, e);
    assert Shown(Handled(l, e)) == Step(Shown(l), e).(messages := after, breakBeforeNextText := due);
  }

  /** The first visible event adds the bubble, and its update finds the break that the handler left. */
  lemma FirstVisibleEvent(l: Live, e: Event)
    requires IsLive(l) && !l.chat.mounted && IsVisible(e)
    ensures Shown(Handled(l, e)) == Step(Shown(l), e) && !TextWaits(l.pending)
  {
    hide Run, RunOne, Updated, UpdateLastAssistant, BreakAfter;
    var c, added := l.chat, if HasUpdate(e) then [UpdateBubble(e)] else [];
    FirstRun(c.messages, c.breakBeforeNextText, e);
    NothingRun(c.messages, c.breakBeforeNextText);
    assert Shown(l) == c;
    assert Handled(l, e).pending == [AppendBubble] + added;
    FirstBreak(c, e);
  }

  lemma NothingRun(messages: seq<Message>, due: bool)
    ensures Run(messages, due, []) == (messages, due)
  {
  }

  lemma FirstBreak(c: Chat, e: Event)
    requires !c.mounted && IsVisible(e)
    ensures BreakAfter(Mount(c), e) == (BreakWritten(c.breakBeforeNextText, e) && !e.TextDelta?)
  {
  }

  lemma FirstRun(messages: seq<Message>, was: bool, e: Event)
    requires IsVisible(e)
    ensures var due, bubbled := BreakWritten(was, e), messages + [EMPTY_BUBBLE];
            Run(messages, due, [AppendBubble] + if HasUpdate(e) then [UpdateBubble(e)] else []) ==
              (UpdateLastAssistant(bubbled, e, was), due && !e.TextDelta?)
  {
    hide Updated, UpdateLastAssistant;
    var due, bubbled := BreakWritten(was, e), messages + [EMPTY_BUBBLE];
    assert Run(messages, due, [AppendBubble]) == (bubbled, due) by {
      assert [AppendBubble][1..] == [];
    }
    if HasUpdate(e) {
      RunSnoc(messages, due, [AppendBubble], UpdateBubble(e));
      UpdateOfBubble(bubbled, due, e);
      BreakOnlyMattersToText(bubbled, due, was, e);
    } else {
      assert [AppendBubble] + [] == [AppendBubble];
      NothingToUpdate(bubbled, e, was);
    }
  }

  // ------------------------------------------------------------ whole turns

  lemma RenderingShowsTheSame(l: Live)
    requires IsLive(l)
    ensures Shown(Rendered(l)) == Shown(l) && IsLive(Rendered(l))
  {
    hide Run;
    NothingRun(Shown(l).messages, Shown(l).breakBeforeNextText);
    if l.chat.mounted {
      BubbleStays(l.chat.messages, l.chat.breakBeforeNextText, l.pending);
    } else {
      NothingRun(l.chat.messages, l.chat.breakBeforeNextText);
    }
  }

  lemma NextIsStepExactlyWhen(l: Live, e: Event, renders: nat -> bool)
    requires IsLive(l)
    ensures Shown(Next(l, e, renders)) == Step(Shown(l), e) <==> !(WritesBreak(e) && TextWaits(l.pending))
    ensures IsLive(Next(l, e, renders))
  {
    hide Shown, Step, Handled, Rendered, IsLive;
    HandledIsStepExactlyWhen(l, e);
    RenderingShowsTheSame(Handled(l, e));
  }

  lemma PrefixGrows(l: Live, events: seq<Event>, renders: nat -> bool, n: nat)
    requires 0 < n <= |events|
    ensures Consume(l, events[..n], renders) == Consume(Next(l, events[0], renders), events[1..][..n - 1], renders)
    ensures Fold(Shown(l), events[..n]) == Fold(Step(Shown(l), events[0]), events[1..][..n - 1])
  {
    hide Next, Step, Shown;
    assert events[..n][1..] == events[1..][..n - 1];
  }

  /** At every point of the turn, what is shown once the waiting updates have run is the fold of the events so far. */
  ghost predicate ShowsTheFold(l: Live, events: seq<Event>, renders: nat -> bool) {
    forall n | 0 <= n <= |events| :: Shown(Consume(l, events[..n], renders)) == Fold(Shown(l), events[..n])
  }

  /** Exactly the calm turns show the fold of their events. */
  lemma {:induction false} CalmExactlyWhen(l: Live, events: seq<Event>, renders: nat -> bool)
    requires IsLive(l)
    ensures ShowsTheFold(l, events, renders) <==> IsCalm(l, events, renders)
    decreases |events|
  {
    hide Next, Step, Shown, IsLive, Fold, Consume;
    NothingConsumed(l, renders);
    NothingFolded(Shown(l));
    if events == [] {
      assert events[..0] == [];
    } else {
      var next := Next(l, events[0], renders);
      NextIsStepExactlyWhen(l, events[0], renders);
      CalmExactlyWhen(next, events[1..], renders);
      FirstEvent(l, events, renders);
      if Shown(next) == Step(Shown(l), events[0]) {
        LaterEvents(l, events, renders);
      }
    }
  }

  lemma NothingFolded(c: Chat)
    ensures Fold(c, []) == c
  {
  }

  lemma FirstEvent(l: Live, events: seq<Event>, renders: nat -> bool)
    requires events != []
    ensures Shown(Consume(l, events[..1], renders)) == Shown(Next(l, events[0], renders))
    ensures Fold(Shown(l), events[..1]) == Step(Shown(l), events[0])
  {
    hide Next, Step, Shown;
    PrefixGrows(l, events, renders, 1);
    assert events[1..][..0] == [];
  }

  lemma LaterEvents(l: Live, events: seq<Event>, renders: nat -> bool)
    requires events != [] && Shown(Next(l, events[0], renders)) == Step(Shown(l), events[0])
    ensures ShowsTheFold(l, events, renders) <==> ShowsTheFold(Next(l, events[0], renders), events[1..], renders)
  {
    hide Next, Step, Shown, Fold, Consume;
    var next, rest := Next(l, events[0], renders), events[1..];
    NothingConsumed(l, renders);
    NothingFolded(Shown(l));
    assert events[..0] == [];
    if ShowsTheFold(l, events, renders) {
      forall n | 0 <= n <= |rest|
        ensures Shown(Consume(next, rest[..n], renders)) == Fold(Shown(next), rest[..n])
      {
        PrefixGrows(l, events, renders, n + 1);
        assert Shown(Consume(l, events[..n + 1], renders)) == Fold(Shown(l), events[..n + 1]);
      }
    }
    if ShowsTheFold(next, rest, renders) {
      forall n | 0 <= n <= |events|
        ensures Shown(Consume(l, events[..n], renders)) == Fold(Shown(l), events[..n])
      {
        if n > 0 {
          PrefixGrows(l, events, renders, n);
          assert Shown(Consume(next, rest[..n - 1], renders)) == Fold(Shown(next), rest[..n - 1]);
        }
      }
    }
  }

  // ------------------------------------------------------------ every way to render

  /** No text is followed by an event that makes a break due. */
  predicate NeverResumes(events: seq<Event>) {
    forall i, j | 0 <= i < j < |events| && events[i].TextDelta? :: !WritesBreak(events[j])
  }

  /**
   What is shown does not depend on when React renders, exactly when no text is followed by a tool call or a restart.
   */
  lemma EveryRenderingAgreesExactlyWhen(start: Chat, events: seq<Event>)
    requires !start.mounted
    ensures (forall renders :: ShowsTheFold(Live(start, [], 0), events, renders)) <==> NeverResumes(events)
  {
    hide ShowsTheFold, IsCalm;
    var l := Live(start, [], 0);
    if NeverResumes(events) {
      forall renders: nat -> bool
        ensures ShowsTheFold(l, events, renders)
      {
        CalmWithoutResuming(l, events, renders);
        CalmExactlyWhen(l, events, renders);
      }
    } else {
      var i, j :| 0 <= i < j < |events| && events[i].TextDelta? && WritesBreak(events[j]);
      var never := (n: nat) => false;
      TextStillWaits(l, events, never, i, j);
      CalmExactlyWhen(l, events, never);
    }
  }

  lemma {:induction false} CalmWithoutResuming(l: Live, events: seq<Event>, renders: nat -> bool)
    requires NeverResumes(events)
    requires TextWaits(l.pending) ==> forall e | e in events :: !WritesBreak(e)
    ensures IsCalm(l, events, renders)
    decreases |events|
  {
    hide Shown, Noted, BreakWritten, WritesBreak;
    if events != [] {
      var e, rest := events[0], events[1..];
      assert e in events && forall x | x in rest :: x in events;
      if TextWaits(Next(l, e, renders).pending) && !TextWaits(l.pending) {
        assert e.TextDelta?;
        forall x | x in rest
          ensures !WritesBreak(x)
        {
          var j :| 0 <= j < |rest| && rest[j] == x;
          assert events[j + 1] == x;
        }
      }
      assert NeverResumes(rest) by {
        forall i, j | 0 <= i < j < |rest| && rest[i].TextDelta?
          ensures !WritesBreak(rest[j])
        {
          assert events[i + 1] == rest[i] && events[j + 1] == rest[j];
        }
      }
      CalmWithoutResuming(Next(l, e, renders), rest, renders);
    }
  }

  /** If React never renders, a text still waits when a later event makes a break due. */
  lemma {:induction false} TextStillWaits(l: Live, events: seq<Event>, never: nat -> bool, i: nat, j: nat)
    requires forall n :: !never(n)
    requires i < j < |events| && WritesBreak(events[j])
    requires events[i].TextDelta? || TextWaits(l.pending)
    ensures !IsCalm(l, events, never)
    decreases |events|
  {
    hide Shown, Noted, BreakWritten, WritesBreak;
    var e, rest := events[0], events[1..];
    var next := Next(l, e, never);
    assert next == Handled(l, e) && forall u | u in l.pending :: u in next.pending;
    if i > 0 || j > 1 {
      if i == 0 {
        assert events[0].TextDelta? ==> UpdateBubble(e) in next.pending && IsText(UpdateBubble(e));
      }
      TextStillWaits(next, rest, never, if i > 0 then i - 1 else 0, j - 1);
    } else {
      assert events[0].TextDelta? ==> UpdateBubble(e) in next.pending && IsText(UpdateBubble(e));
      assert rest[0] == events[1];
    }
  }

  // ------------------------------------------------------------ chunks

  /**
   However the response is cut into chunks and whenever React renders, the same events are handled in the same order.
   Two calm turns show the same in the end: the fold of those events.
   */
  method ChunkingInvariance(
    messages: seq<Message>, conversationId: Option<string>, one: seq<string>, other: seq<string>,
    parse: string -> Option<Event>, ending: Ending, aborted: bool, renders: nat -> bool, otherwise: nat -> bool)
    returns (first: Chat, second: Chat, ghost dispatched: seq<Event>, ghost again: seq<Event>)
    requires Flatten(one) == Flatten(other)
    ensures dispatched == again == EventsOf(Lines(Flatten(one)), parse)
    ensures var start := Chat(messages, false, false, false, false, None, conversationId);
            && (IsCalm(Live(start, [], 0), dispatched, renders) ==>
                  first == Ended(Fold(start, dispatched), ending, aborted))
            && (IsCalm(Live(start, [], 0), dispatched, renders) && IsCalm(Live(start, [], 0), dispatched, otherwise) ==>
                  first == second)
    ensures NeverResumes(dispatched) ==> first == second
  {
    hide Consume, Fold, Run, IsCalm, Lines, EventsOf;
    var a := new Turn(messages, conversationId, renders);
    ghost var start := a.View();
    a.ReadStream(one, parse, ending, aborted);
    var b := new Turn(messages, conversationId, otherwise);
    b.ReadStream(other, parse, ending, aborted);
    dispatched, again := a.dispatched, b.dispatched;
    CalmEnds(start, dispatched, renders, ending, aborted);
    CalmEnds(start, dispatched, otherwise, ending, aborted);
    if NeverResumes(dispatched) {
      CalmWithoutResuming(start, dispatched, renders);
      CalmWithoutResuming(start, dispatched, otherwise);
    }
    a.Render();
    b.Render();
    first, second := a.View().chat, b.View().chat;
  }

  lemma CalmEnds(l: Live, events: seq<Event>, renders: nat -> bool, ending: Ending, aborted: bool)
    requires IsLive(l) && l.pending == []
    ensures var after := Consume(l, events, renders);
            IsCalm(l, events, renders) ==>
              Shown(after.(chat := Ended(after.chat, ending, aborted))) == Ended(Fold(l.chat, events), ending, aborted)
  {
    hide Consume, Fold, Run, IsCalm;
    NothingRun(l.chat.messages, l.chat.breakBeforeNextText);
    assert Shown(l) == l.chat;
    CalmExactlyWhen(l, events, renders);
    assert events[..|events|] == events;
    if IsCalm(l, events, renders) {
      assert Shown(Consume(l, events[..|events|], renders)) == Fold(Shown(l), events[..|events|]);
    }
  }

  /**
   Two texts in one chunk with a tool call: the first update runs at once, the second waits, finds the break that
   belongs to the text after the tool, and uses it up. Rendered in between, the two texts join.
   */
  lemma OneChunkBreaksTheText(start: Chat, x: string, y: string, id: string, name: string, renders: nat -> bool)
    requires renders(0) && !renders(1) && !renders(2)
    requires HasBubble(start) && !start.breakBeforeNextText
    requires x != "" && !EndsWithSpace(x) && !StartsWithSpace(y)
    ensures var events, text := [TextDelta(x), TextDelta(y), ToolUse(id, name)], Bubble(start).text;
            var oneChunk, three := Shown(Consume(Live(start, [], 0), events, renders)), Fold(start, events);
            && HasBubble(oneChunk) && HasBubble(three)
            && Bubble(oneChunk).text == text + x + ("\n\n" + y) && !oneChunk.breakBeforeNextText
            && Bubble(three).text == text + x + y && three.breakBeforeNextText
  {
    hide Run, RunOne, Step, Updated, Shown, TextWaits, Consume, IsCalm;
    var first, second, tool := TextDelta(x), TextDelta(y), ToolUse(id, name);
    var l := Live(start, [], 0);
    ThreeConsumed(l, first, second, tool, renders);
    InOrder(start, x, y, id, name);
    NothingShown(start);
    NextIsStepExactlyWhen(l, first, renders);
    TextStep(start, x);
    RenderedNext(l, first, renders);
    var one := Step(start, first);
    assert Next(l, first, renders) == Live(one, [], 1);
    var l2 := Next(Live(one, [], 1), second, renders);
    assert [] + [UpdateBubble(second)] == [UpdateBubble(second)];
    assert l2.pending == [UpdateBubble(second)] && l2.chat.messages == one.messages && l2.chat.mounted;
    var l3 := Next(l2, tool, renders);
    assert [UpdateBubble(second)] + [UpdateBubble(tool)] == [UpdateBubble(second), UpdateBubble(tool)];
    assert l3.pending == [UpdateBubble(second), UpdateBubble(tool)] && l3.chat.messages == one.messages;
    assert l3.chat.mounted && l3.chat.breakBeforeNextText;
    BothWaited(one, y, tool);
    ShownRuns(l3);
  }

  lemma ShownRuns(l: Live)
    ensures var (messages, due) := Run(l.chat.messages, l.chat.breakBeforeNextText, l.pending);
            Shown(l) == l.chat.(messages := messages, breakBeforeNextText := due)
  {
    hide Run;
  }

  lemma NothingShown(c: Chat)
    ensures Shown(Live(c, [], 0)) == c
  {
    hide Run;
    NothingRun(c.messages, c.breakBeforeNextText);
  }

  lemma RenderedNext(l: Live, e: Event, renders: nat -> bool)
    requires IsLive(l) && renders(l.handled)
    ensures Next(l, e, renders) == Live(Shown(Next(l, e, renders)), [], l.handled + 1)
  {
    hide Shown, Noted, BreakWritten;
    HandledIsStepExactlyWhen(l, e);
    RenderingShowsTheSame(Handled(l, e));
  }

  /** A text and a tool call that ran together after the handler of the call had made the break due. */
  lemma BothWaited(c: Chat, y: string, tool: Event)
    requires HasBubble(c) && Bubble(c).text != "" && !EndsWithSpace(Bubble(c).text) && !StartsWithSpace(y)
              && tool.ToolUse?
    ensures var (after, due) := Run(c.messages, true, [UpdateBubble(TextDelta(y)), UpdateBubble(tool)]);
            LastIsAssistant(after) && after[|after| - 1].text == Bubble(c).text + ("\n\n" + y) && !due
  {
    hide Run;
    var b, t := UpdateBubble(TextDelta(y)), UpdateBubble(tool);
    assert [b] + [t] == [b, t] && [] + [b] == [b];
    RunSnoc(c.messages, true, [b], t);
    RunSnoc(c.messages, true, [], b);
    NothingRun(c.messages, true);
  }

  lemma TextStep(c: Chat, delta: string)
    requires HasBubble(c) && !c.breakBeforeNextText
    ensures var after := Step(c, TextDelta(delta));
            && HasBubble(after) && !after.breakBeforeNextText && |after.messages| == |c.messages|
            && Bubble(after).text == Bubble(c).text + delta
  {
    StepOnBubble(c, TextDelta(delta));
  }

  lemma ToolStep(c: Chat, id: string, name: string)
    requires HasBubble(c)
    ensures var after := Step(c, ToolUse(id, name));
            && after.breakBeforeNextText && |after.messages| == |c.messages| && HasBubble(after)
            && Bubble(after).text == Bubble(c).text
  {
    StepOnBubble(c, ToolUse(id, name));
  }

  lemma InOrder(start: Chat, x: string, y: string, id: string, name: string)
    requires HasBubble(start) && !start.breakBeforeNextText
    ensures var after := Fold(start, [TextDelta(x), TextDelta(y), ToolUse(id, name)]);
            HasBubble(after) && Bubble(after).text == Bubble(start).text + x + y && after.breakBeforeNextText
  {
    hide Step;
    var first, second, tool := TextDelta(x), TextDelta(y), ToolUse(id, name);
    assert [first, second, tool][1..] == [second, tool] && [second, tool][1..] == [tool] && [tool][1..] == [];
    TextStep(start, x);
    var one := Step(start, first);
    TextStep(one, y);
    var two := Step(one, second);
    ToolStep(two, id, name);
    assert Fold(two, [tool]) == Step(two, tool);
    assert Fold(one, [second, tool]) == Fold(two, [tool]);
  }

  lemma ThreeConsumed(l: Live, x: Event, y: Event, z: Event, renders: nat -> bool)
    ensures Consume(l, [x, y, z], renders) == Next(Next(Next(l, x, renders), y, renders), z, renders)
  {
    hide Next;
    assert [x, y, z][1..] == [y, z] && [y, z][1..] == [z] && [z][1..] == [];
    var one := Next(l, x, renders);
    var two := Next(one, y, renders);
    assert Consume(two, [z], renders) == Next(two, z, renders);
    assert Consume(one, [y, z], renders) == Consume(two, [z], renders);
  }
}
