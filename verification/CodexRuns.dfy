/** What holds in every reachable state of a Codex session, over any sequence of server
    messages and operator polls. */
module CodexRuns {
  import opened Json
  import opened CodexSession
  import Text

  datatype Event = Message(message: Incoming) | Poll(batch: seq<Control>)

  function Step(s: State, event: Event): (State, seq<Outgoing>) {
    match event
    case Message(message) =>
      var (after, update) := OnMessage(s, message);
      (after, update.outbound)
    case Poll(batch) => PollAll(s, batch)
  }

  /** The state after a run and everything it sent. */
  function Run(events: seq<Event>): (State, seq<Outgoing>) {
    if events == [] then (START, [])
    else
      var (before, sent) := Run(Text.Init(events));
      var (after, more) := Step(before, Text.Last(events));
      (after, sent + more)
  }

  function StateAfter(events: seq<Event>): State {
    Run(events).0
  }

  function Sent(events: seq<Event>): seq<Outgoing> {
    Run(events).1
  }

  // ----- Reading the log of what was sent -----

  function Collect<T>(log: seq<Outgoing>, pick: Outgoing -> Option<T>): seq<T> {
    if log == [] then []
    else
      Collect(Text.Init(log), pick)
      + match pick(Text.Last(log)) case Some(x) => [x] case None => []
  }

  lemma {:induction false} CollectAppend<T>(a: seq<Outgoing>, b: seq<Outgoing>, pick: Outgoing -> Option<T>)
    ensures Collect(a + b, pick) == Collect(a, pick) + Collect(b, pick)
  {
    if b == [] {
      assert a + b == a;
    } else {
      CollectAppend(a, Text.Init(b), pick);
      assert Text.Init(a + b) == a + Text.Init(b);
    }
  }

  lemma CollectNone<T>(pick: Outgoing -> Option<T>)
    ensures Collect([], pick) == []
  {
  }

  lemma CollectOne<T>(o: Outgoing, pick: Outgoing -> Option<T>)
    ensures Collect([o], pick) == match pick(o) case Some(x) => [x] case None => []
  {
  }

  function ThreadStarts(o: Outgoing): Option<(int, Style)> {
    if o.ThreadStart? then Some((o.id, o.style)) else None
  }

  function TurnStarts(o: Outgoing): Option<(int, string, Style)> {
    if o.TurnStart? then Some((o.id, o.thread, o.style)) else None
  }

  function SteeredTexts(o: Outgoing): Option<string> {
    if o.SteerTurn? then Some(o.text) else None
  }

  function ControlIds(o: Outgoing): Option<int> {
    if o.SteerTurn? || o.InterruptTurn? then Some(o.id) else None
  }

  /** Steering and interruption requests only ever extend the control side of the session. */
  ghost predicate OnlyControls(s: State, after: State, sent: seq<Outgoing>) {
    && after == s.(pending := after.pending, nextId := after.nextId, controls := after.controls)
    && Collect(sent, ThreadStarts) == [] && Collect(sent, TurnStarts) == []
    && after.nextId == s.nextId + |Collect(sent, ControlIds)|
    && (forall i :: 0 <= i < |Collect(sent, ControlIds)| ==> Collect(sent, ControlIds)[i] == s.nextId + i)
    && (forall id :: id in after.controls <==> id in s.controls || s.nextId <= id < after.nextId)
    && (forall o :: o in sent && (o.SteerTurn? || o.InterruptTurn?) ==> o.thread == s.threadId && o.turn == s.turnId)
  }

  lemma {:induction false} SteerAllOnlyControls(s: State, texts: seq<string>)
    ensures var (after, sent) := SteerAll(s, texts);
            OnlyControls(s, after, sent) && Collect(sent, SteeredTexts) == texts && after.pending == s.pending
  {
    if texts != [] {
      SteerAllOnlyControls(s, Text.Init(texts));
      var (before, sent) := SteerAll(s, Text.Init(texts));
      var (after, request) := SteerOne(before, Text.Last(texts));
      assert Text.Init(sent + [request]) == sent;
      assert texts == Text.Init(texts) + [Text.Last(texts)];
    }
  }

  // ----- Steering conservation -----

  /** The non-empty texts the operator has asked to send. */
  function PolledTexts(batch: seq<Control>): seq<string> {
    if batch == [] then []
    else
      PolledTexts(Text.Init(batch))
      + match Text.Last(batch)
        case Steer(data) => if Text.Strip(data) == "" then [] else [Text.Strip(data)]
        case _ => []
  }

  function Polled(events: seq<Event>): seq<string> {
    if events == [] then []
    else
      Polled(Text.Init(events)) + TextsOf(Text.Last(events))
  }

  /** Nothing waits once both ids are known. */
  predicate Drained(s: State) {
    Active(s) ==> s.pending == []
  }

  lemma PollOneConserves(s: State, control: Control)
    ensures var (after, sent) := PollOne(s, control);
      && OnlyControls(s, after, sent)
      && (Active(s) ==> after.pending == s.pending && Collect(sent, SteeredTexts) == PolledTexts([control]))
      && (!Active(s) ==> sent == [] && after.pending == s.pending + PolledTexts([control]))
  {
    assert Text.Init([control]) == [];
    var (after, sent) := PollOne(s, control);
    if sent != [] {
      CollectOne(sent[0], SteeredTexts);
      CollectOne(sent[0], ControlIds);
      CollectOne(sent[0], ThreadStarts);
      CollectOne(sent[0], TurnStarts);
    }
  }

  lemma OnlyControlsThen(s: State, middle: State, first: seq<Outgoing>, after: State, second: seq<Outgoing>)
    requires OnlyControls(s, middle, first) && OnlyControls(middle, after, second)
    ensures OnlyControls(s, after, first + second)
  {
    CollectAppend(first, second, ControlIds);
    CollectAppend(first, second, ThreadStarts);
    CollectAppend(first, second, TurnStarts);
  }

  lemma {:induction false} PollAllConserves(s: State, batch: seq<Control>)
    ensures var (after, sent) := PollAll(s, batch);
      && OnlyControls(s, after, sent)
      && (Active(s) ==> after.pending == s.pending && Collect(sent, SteeredTexts) == PolledTexts(batch))
      && (!Active(s) ==> sent == [] && after.pending == s.pending + PolledTexts(batch))
  {
    if batch != [] {
      PollAllConserves(s, Text.Init(batch));
      var (before, sent) := PollAll(s, Text.Init(batch));
      var (after, more) := PollOne(before, Text.Last(batch));
      PollOneConserves(before, Text.Last(batch));
      OnlyControlsThen(s, before, sent, after, more);
      CollectAppend(sent, more, SteeredTexts);
      PolledTextsOne(batch);
    }
  }

  lemma PolledTextsOne(batch: seq<Control>)
    requires batch != []
    ensures PolledTexts(batch) == PolledTexts(Text.Init(batch)) + PolledTexts([Text.Last(batch)])
  {
  }

  lemma FlushConserves(s: State)
    ensures var (after, sent) := Flush(s);
      && OnlyControls(s, after, sent)
      && Drained(after)
      && Collect(sent, SteeredTexts) + after.pending == s.pending
  {
    if Active(s) {
      SteerAllOnlyControls(s.(pending := []), s.pending);
    }
  }

  /** The one way to leave texts waiting in an active session: the thread id arrives
      after the turn id, with texts queued. */
  predicate LateThread(s: State, event: Event) {
    && event.Message? && event.message.Response? && event.message.reply.Success?
    && event.message.id.Number?
    && event.message.id.n !in s.controls && event.message.id.n != 1 && event.message.id.n in s.threadIds
    && event.message.reply.thread.Some? && event.message.reply.thread.value != ""
    && s.turnId != "" && s.pending != []
  }

  ghost predicate Conserved(s: State, after: State, sent: seq<Outgoing>) {
    Collect(sent, SteeredTexts) + after.pending == s.pending
  }

  lemma FailureConserves(s: State, id: Id, detail: string)
    ensures var (after, update) := OnFailure(s, id, detail);
      && Conserved(s, after, update.outbound)
      && (Drained(s) ==> Drained(after))
  {
  }

  lemma SuccessConserves(s: State, id: Id, reply: Reply)
    requires reply.Success?
    ensures var (after, update) := OnSuccess(s, id, reply);
      && Conserved(s, after, update.outbound)
      && (Drained(s) ==> (Drained(after) <==> !LateThread(s, Message(Response(id, reply)))))
  {
    var (after, update) := OnSuccess(s, id, reply);
    var popped := ForgetControl(s, id);
    if AnswersControl(s, id) || !id.Number? {
    } else if id.n == 1 {
      var request := StartThread(popped).1;
      CollectOne(Initialized, SteeredTexts);
      CollectOne(request, SteeredTexts);
      CollectAppend([Initialized], [request], SteeredTexts);
      assert update.outbound == [Initialized] + [request];
    } else if id.n in popped.threadIds {
      if update.outbound != [] {
        CollectOne(update.outbound[0], SteeredTexts);
      }
    } else if id.n in popped.turnIds {
      var turn := TurnIdAfter(popped, reply.turn);
      FlushConserves(popped.(turnId := turn, workStarted := turn != ""));
    }
  }

  lemma MessageConserves(s: State, message: Incoming)
    ensures var (after, update) := OnMessage(s, message);
      && Conserved(s, after, update.outbound)
      && (Drained(s) ==> (Drained(after) <==> !LateThread(s, Message(message))))
  {
    match message
    case ServerRequest(id, _) => CollectOne(Answer(id), SteeredTexts);
    case TurnStarted(turn) => FlushConserves(s.(turnId := TurnIdAfter(s, turn), workStarted := true));
    case Response(id, reply) =>
      if reply.Success? {
        SuccessConserves(s, id, reply);
      } else {
        FailureConserves(s, id, reply.detail);
      }
    case _ =>
  }

  /** A step keeps an active session's queue empty except by a late thread id. */
  lemma DrainedExactly(s: State, event: Event)
    requires Drained(s)
    ensures Drained(Step(s, event).0) <==> !LateThread(s, event)
  {
    match event
    case Message(message) => MessageConserves(s, message);
    case Poll(batch) => PollAllConserves(s, batch);
  }

  /** No steering text is lost or duplicated, whatever the server does. */
  lemma {:induction false} SteeringNeverLost(events: seq<Event>)
    ensures multiset(Collect(Sent(events), SteeredTexts)) + multiset(StateAfter(events).pending)
         == multiset(Polled(events))
  {
    if events != [] {
      var earlier, event := Text.Init(events), Text.Last(events);
      SteeringNeverLost(earlier);
      var s := StateAfter(earlier);
      var (after, more) := Step(s, event);
      CollectAppend(Sent(earlier), more, SteeredTexts);
      if event.Message? {
        MessageConserves(s, event.message);
        assert multiset(s.pending) == multiset(Collect(more, SteeredTexts)) + multiset(after.pending);
      } else {
        PollAllConserves(s, event.batch);
      }
    }
  }

  ghost predicate NeverLate(events: seq<Event>) {
    forall k :: 0 <= k < |events| ==> !LateThread(StateAfter(events[..k]), events[k])
  }

  lemma NeverLateInit(events: seq<Event>)
    requires events != [] && NeverLate(events)
    ensures NeverLate(Text.Init(events)) && !LateThread(StateAfter(Text.Init(events)), Text.Last(events))
  {
    var earlier := Text.Init(events);
    assert events[..|events| - 1] == earlier;
    forall k | 0 <= k < |earlier|
      ensures !LateThread(StateAfter(earlier[..k]), earlier[k])
    {
      assert events[..k] == earlier[..k];
    }
  }

  function TextsOf(event: Event): seq<string> {
    if event.Poll? then PolledTexts(event.batch) else []
  }

  /** A text polled in an active session is sent at once, past the texts still waiting. */
  predicate Overtakes(s: State, event: Event) {
    Active(s) && TextsOf(event) + s.pending != s.pending + TextsOf(event)
  }

  /** The texts sent, followed by those waiting, are those polled, in order. */
  ghost predicate InOrder(events: seq<Event>) {
    Collect(Sent(events), SteeredTexts) + StateAfter(events).pending == Polled(events)
  }

  lemma Regroup(sent: seq<string>, left: seq<string>, queued: seq<string>, polled: seq<string>)
    ensures sent + left == sent + queued + polled <==> left == queued + polled
  {
    assert sent + queued + polled == sent + (queued + polled);
    assert (sent + left)[|sent|..] == left && (sent + (queued + polled))[|sent|..] == queued + polled;
  }

  lemma StepInOrder(s: State, event: Event)
    ensures var (after, more) := Step(s, event);
      Collect(more, SteeredTexts) + after.pending == s.pending + TextsOf(event) <==> !Overtakes(s, event)
  {
    hide Collect, OnMessage, PollAll, PolledTexts, LateThread;
    match event
    case Message(message) => MessageConserves(s, message);
    case Poll(batch) =>
      PollAllConserves(s, batch);
      CollectNone(SteeredTexts);
      assert [] + PollAll(s, batch).0.pending == PollAll(s, batch).0.pending;
  }

  lemma OrderKept(events: seq<Event>, event: Event)
    requires InOrder(events)
    ensures InOrder(events + [event]) <==> !Overtakes(StateAfter(events), event)
  {
    hide Collect, Step, Overtakes;
    var s, log := StateAfter(events), Sent(events);
    var (after, more) := Step(s, event);
    RunOn(events, event);
    StepInOrder(s, event);
    CollectAppend(log, more, SteeredTexts);
    var sent, next := Collect(log, SteeredTexts), Collect(more, SteeredTexts);
    assert sent + next + after.pending == sent + (next + after.pending);
    Regroup(sent, next + after.pending, s.pending, TextsOf(event));
  }

  /** Every state of a run has its texts in order exactly when no poll overtakes. */
  lemma {:induction false} OrderExactly(events: seq<Event>)
    ensures (forall k :: 0 <= k <= |events| ==> InOrder(events[..k]))
       <==> forall k :: 0 <= k < |events| ==> !Overtakes(StateAfter(events[..k]), events[k])
  {
    hide InOrder, Overtakes, StateAfter;
    if events == [] {
      assert InOrder([]) by {
        NothingInOrder();
      }
      assert events[..0] == [];
    } else {
      var n, earlier := |events| - 1, Text.Init(events);
      OrderExactly(earlier);
      assert events[..n] == earlier && events[..n + 1] == events == earlier + [events[n]];
      assert forall k :: 0 <= k <= n ==> events[..k] == earlier[..k];
      assert earlier[..n] == earlier;
      if InOrder(earlier) {
        OrderKept(earlier, events[n]);
      }
    }
  }

  lemma NothingInOrder()
    ensures InOrder([])
  {
  }

  lemma {:induction false} NeverLateDrained(events: seq<Event>)
    requires NeverLate(events)
    ensures Drained(StateAfter(events))
  {
    if events != [] {
      NeverLateInit(events);
      NeverLateDrained(Text.Init(events));
      DrainedExactly(StateAfter(Text.Init(events)), Text.Last(events));
    }
  }

  lemma NeverLatePrefix(events: seq<Event>, k: nat)
    requires NeverLate(events) && k <= |events|
    ensures NeverLate(events[..k])
  {
    forall j | 0 <= j < k
      ensures !LateThread(StateAfter(events[..k][..j]), events[..k][j])
    {
      assert events[..k][..j] == events[..j];
    }
  }

  /** Without a late thread id nothing overtakes: texts are sent in the order they were
      polled, the rest waiting in that order. */
  lemma {:induction false} SteeringInOrder(events: seq<Event>)
    requires NeverLate(events)
    ensures Drained(StateAfter(events)) && InOrder(events)
    ensures forall k :: 0 <= k < |events| ==> !Overtakes(StateAfter(events[..k]), events[k])
  {
    NeverLateDrained(events);
    OrderExactly(events);
    forall k | 0 <= k < |events|
      ensures !Overtakes(StateAfter(events[..k]), events[k])
    {
      NeverLatePrefix(events, k);
      NeverLateDrained(events[..k]);
    }
    assert events[..|events|] == events;
  }

  /** Every reachable state is drained exactly when no thread id comes late. */
  lemma {:induction false} AlwaysDrainedExactly(events: seq<Event>)
    ensures NeverLate(events) <==> forall k :: 0 <= k <= |events| ==> Drained(StateAfter(events[..k]))
  {
    if NeverLate(events) {
      forall k | 0 <= k <= |events|
        ensures Drained(StateAfter(events[..k]))
      {
        NeverLatePrefix(events, k);
        NeverLateDrained(events[..k]);
      }
    } else {
      var k :| 0 <= k < |events| && LateThread(StateAfter(events[..k]), events[k]);
      var longer := events[..k + 1];
      assert Text.Init(longer) == events[..k] && Text.Last(longer) == events[k];
      if Drained(StateAfter(events[..k])) {
        DrainedExactly(StateAfter(events[..k]), events[k]);
        assert StateAfter(longer) == Step(StateAfter(events[..k]), events[k]).0;
      }
    }
  }

  lemma RunOn(events: seq<Event>, event: Event)
    ensures Run(events + [event])
         == var (after, more) := Step(StateAfter(events), event); (after, Sent(events) + more)
    ensures Polled(events + [event]) == Polled(events) + TextsOf(event)
  {
  }

  lemma PollLetter(s: State, c: char)
    requires 'a' <= c <= 'z'
    ensures PolledTexts([Steer([c])]) == [[c]]
    ensures PollAll(s, [Steer([c])]) == PollOne(s, Steer([c]))
  {
    StripLetter(c);
    assert Text.Init([Steer([c])]) == [];
    var (after, more) := PollOne(s, Steer([c]));
    assert [] + more == more;
  }

  function SteerBeforeThread(): seq<Event> {
    [] + [Message(Response(Number(1), Success(None, None)))]
       + [Poll([Steer("a")])]
       + [Message(TurnStarted(Some("t")))]
  }

  lemma QueuedBeforeThread()
    ensures Run(SteerBeforeThread())
         == (START.(nextProtocolId := 3, threadIds := {2}, pending := ["a"], turnId := "t", workStarted := true),
             [Initialized, ThreadStart(2, Kebab)])
    ensures Polled(SteerBeforeThread()) == ["a"]
  {
    hide Collect, SteerAll;
    var e1 := Message(Response(Number(1), Success(None, None)));
    var e2 := Poll([Steer("a")]);
    var e3 := Message(TurnStarted(Some("t")));
    RunOn([], e1);
    var s1 := START.(nextProtocolId := 3, threadIds := {2});
    assert START.threadIds + {2} == {2};
    assert StartThread(START) == (s1, ThreadStart(2, Kebab));
    assert Step(START, e1) == (s1, [Initialized, ThreadStart(2, Kebab)]);
    RunOn([] + [e1], e2);
    PollLetter(s1, 'a');
    assert PollOne(s1, Steer("a")) == (s1.(pending := ["a"]), []) by {
      StripLetter('a');
      assert [] + ["a"] == ["a"];
    }
    RunOn([] + [e1] + [e2], e3);
    assert !Active(s1.(turnId := "t"));
    var log := [Initialized, ThreadStart(2, Kebab)];
    assert [] + log == log && log + [] == log;
  }

  /** A late thread id leaves the queue waiting while the next text is sent at once. */
  lemma LateThreadOvertakes(s: State, event: Event, text: string)
    requires LateThread(s, event) && text == Text.Strip(text) != ""
    ensures var (late, request) := Step(s, event);
      && |request| == 1 && request[0].TurnStart? && late.pending == s.pending != []
      && var (after, sent) := PollOne(late, Steer(text));
         && after.pending == s.pending
         && sent == [SteerTurn(s.nextId, late.threadId, s.turnId, text)]
  {
  }

  /** So a text can overtake an earlier one. */
  lemma LateThreadReorders()
    ensures
      var events := SteerBeforeThread() + [Message(Response(Number(2), Success(Some("x"), None)))]
        + [Poll([Steer("b")])];
      && Polled(events) == ["a", "b"]
      && Collect(Sent(events), SteeredTexts) == ["b"]
      && StateAfter(events).pending == ["a"]
  {
    QueuedBeforeThread();
    OvertakenIn(SteerBeforeThread(), Message(Response(Number(2), Success(Some("x"), None))), 'b');
  }

  lemma OvertakenIn(events: seq<Event>, event: Event, c: char)
    requires 'a' <= c <= 'z' && LateThread(StateAfter(events), event)
    requires |Sent(events)| == 2 && forall o :: o in Sent(events) ==> !o.SteerTurn?
    ensures
      var longer := events + [event] + [Poll([Steer([c])])];
      && Polled(longer) == Polled(events) + [[c]]
      && Collect(Sent(longer), SteeredTexts) == [[c]]
      && StateAfter(longer).pending == StateAfter(events).pending
  {
    hide Step, LateThread, Run, Collect;
    var s, poll := StateAfter(events), Poll([Steer([c])]);
    OvertakenStep(s, event, c);
    RunOn(events, event);
    RunOn(events + [event], poll);
    var (late, request) := Step(s, event);
    var steer := Step(late, poll).1;
    OnlyTheSteer(Sent(events) + request, steer[0]);
    assert steer == [steer[0]];
    assert Polled(events) + [] == Polled(events);
  }

  lemma OvertakenStep(s: State, event: Event, c: char)
    requires 'a' <= c <= 'z' && LateThread(s, event)
    ensures var poll := Poll([Steer([c])]);
      var (late, request) := Step(s, event);
      var (after, sent) := Step(late, poll);
      && TextsOf(event) == [] && TextsOf(poll) == [[c]]
      && |request| == 1 && !request[0].SteerTurn?
      && |sent| == 1 && sent[0].SteerTurn? && sent[0].text == [c]
      && after.pending == s.pending
  {
    hide SteerAll;
    StripLetter(c);
    LateThreadOvertakes(s, event, [c]);
    PollLetter(Step(s, event).0, c);
  }

  lemma OnlyTheSteer(log: seq<Outgoing>, request: Outgoing)
    requires |log| == 3 && forall o :: o in log ==> !o.SteerTurn?
    requires request.SteerTurn?
    ensures Collect(log + [request], SteeredTexts) == [request.text]
  {
    CollectAppend(log, [request], SteeredTexts);
    CollectOne(request, SteeredTexts);
    CollectOne(log[0], SteeredTexts);
    assert Text.Init(Text.Init(log)) == [log[0]];
  }

  lemma StripLetter(c: char)
    requires 'a' <= c <= 'z'
    ensures Text.Strip([c]) == [c]
  {
  }

  // ----- The handshake -----

  /** A server answers each request at most once (section 5 of JSON-RPC 2.0). */
  ghost predicate AnswersOnce(events: seq<Event>) {
    forall i, j :: 0 <= i < j < |events| && AnswerTo(events[i]).Some? ==> AnswerTo(events[i]) != AnswerTo(events[j])
  }

  function AnswerTo(event: Event): Option<int> {
    match event
    case Message(Response(Number(n), _)) => Some(n)
    case _ => None
  }

  function Answered(events: seq<Event>): set<int> {
    set event | event in events && AnswerTo(event).Some? :: AnswerTo(event).value
  }

  ghost predicate ThreadStage(s: State, starts: seq<(int, Style)>, answered: set<int>) {
    && (|| (starts == [] && s.threadIds == {} && s.threadStyle == Kebab && s.threadTried == {Kebab})
        || (starts == [(2, Kebab)] && s.threadIds == {2} && s.threadStyle == Kebab && s.threadTried == {Kebab})
        || (starts == [(2, Kebab), (3, Camel)] && s.threadIds == {2, 3} && 2 in answered
            && s.threadStyle == Camel && s.threadTried == {Kebab, Camel}))
    && (starts != [] ==> 1 in answered)
    && (s.threadId != "" ==> starts != [] && s.threadIds <= answered)
  }

  ghost predicate TurnStage(s: State, first: int, starts: seq<(int, string, Style)>, answered: set<int>) {
    && (|| (starts == [] && s.turnIds == {} && s.turnStyle == Camel && s.turnTried == {Camel})
        || (starts == [(first, s.threadId, Camel)] && s.turnIds == {first}
            && s.turnStyle == Camel && s.turnTried == {Camel})
        || (starts == [(first, s.threadId, Camel), (first + 1, s.threadId, Kebab)] && s.turnIds == {first, first + 1} && first in answered
            && s.turnStyle == Kebab && s.turnTried == {Kebab, Camel}))
    && (starts != [] ==> s.threadId != "")
  }

  ghost predicate Handshake(
    s: State, threads: seq<(int, Style)>, turns: seq<(int, string, Style)>, answered: set<int>)
  {
    && ThreadStage(s, threads, answered)
    && TurnStage(s, 2 + |threads|, turns, answered)
    && s.nextProtocolId == 2 + |threads| + |turns|
    && s.nextId >= 100
    && (forall id :: id in s.controls ==> 100 <= id < s.nextId)
  }

  lemma ControlsKeepHandshake(
    s: State, after: State, sent: seq<Outgoing>,
    threads: seq<(int, Style)>, turns: seq<(int, string, Style)>, answered: set<int>)
    requires Handshake(s, threads, turns, answered) && OnlyControls(s, after, sent)
    ensures Handshake(after, threads + Collect(sent, ThreadStarts), turns + Collect(sent, TurnStarts), answered)
  {
  }

  lemma RetryKeepsHandshake(
    s: State, n: int, detail: string,
    threads: seq<(int, Style)>, turns: seq<(int, string, Style)>, answered: set<int>)
    requires Handshake(s, threads, turns, answered) && n !in answered
    requires SandboxRetry(s, Number(n), detail).Some?
    ensures var (after, update) := SandboxRetry(s, Number(n), detail).value;
      Handshake(after, threads + Collect(update.outbound, ThreadStarts),
                turns + Collect(update.outbound, TurnStarts), answered + {n})
  {
    hide Collect, VariantError;
    var request := SandboxRetry(s, Number(n), detail).value.1.outbound[0];
    CollectOne(request, ThreadStarts);
    CollectOne(request, TurnStarts);
    assert threads + [] == threads && turns + [] == turns;
  }

  lemma FailureKeepsHandshake(
    s: State, n: int, detail: string,
    threads: seq<(int, Style)>, turns: seq<(int, string, Style)>, answered: set<int>)
    requires Handshake(s, threads, turns, answered) && n !in answered
    ensures var (after, update) := OnFailure(s, Number(n), detail);
      Handshake(after, threads + Collect(update.outbound, ThreadStarts),
                turns + Collect(update.outbound, TurnStarts), answered + {n})
  {
    hide Collect, SandboxRetry;
    CollectNone(ThreadStarts);
    CollectNone(TurnStarts);
    assert threads + [] == threads && turns + [] == turns;
    var popped := ForgetControl(s, Number(n));
    assert Handshake(popped, threads, turns, answered);
    if SandboxRetry(popped, Number(n), detail).Some? {
      RetryKeepsHandshake(popped, n, detail, threads, turns, answered);
    }
  }

  lemma SuccessKeepsHandshake(
    s: State, n: int, reply: Reply,
    threads: seq<(int, Style)>, turns: seq<(int, string, Style)>, answered: set<int>)
    requires reply.Success?
    requires Handshake(s, threads, turns, answered) && n !in answered
    ensures var (after, update) := OnSuccess(s, Number(n), reply);
      Handshake(after, threads + Collect(update.outbound, ThreadStarts),
                turns + Collect(update.outbound, TurnStarts), answered + {n})
  {
    hide Collect, SteerAll, Flush;
    CollectNone(ThreadStarts);
    CollectNone(TurnStarts);
    var (after, update) := OnSuccess(s, Number(n), reply);
    var popped := ForgetControl(s, Number(n));
    assert threads + [] == threads && turns + [] == turns;
    if AnswersControl(s, Number(n)) {
    } else if n == 1 {
      var request := StartThread(popped).1;
      CollectOne(Initialized, ThreadStarts);
      CollectOne(Initialized, TurnStarts);
      CollectOne(request, ThreadStarts);
      CollectOne(request, TurnStarts);
      CollectAppend([Initialized], [request], ThreadStarts);
      CollectAppend([Initialized], [request], TurnStarts);
      assert update.outbound == [Initialized] + [request];
    } else if n in popped.threadIds {
      if update.outbound != [] {
        CollectOne(update.outbound[0], ThreadStarts);
        CollectOne(update.outbound[0], TurnStarts);
      }
    } else if n in popped.turnIds {
      TurnAnswerKeepsHandshake(popped, n, reply.turn, threads, turns, answered);
    }
  }

  lemma TurnAnswerKeepsHandshake(
    s: State, n: int, turn: Option<string>,
    threads: seq<(int, Style)>, turns: seq<(int, string, Style)>, answered: set<int>)
    requires Handshake(s, threads, turns, answered)
    ensures var (after, update) := OnTurn(s, turn);
      Handshake(after, threads + Collect(update.outbound, ThreadStarts),
                turns + Collect(update.outbound, TurnStarts), answered + {n})
  {
    hide Collect, SteerAll, Flush;
    var (after, update) := OnTurn(s, turn);
    var id := TurnIdAfter(s, turn);
    var moved := s.(turnId := id, workStarted := id != "");
    FlushConserves(moved);
    assert Handshake(moved, threads, turns, answered + {n});
    ControlsKeepHandshake(moved, after, update.outbound, threads, turns, answered + {n});
  }

  lemma StepKeepsHandshake(
    s: State, event: Event,
    threads: seq<(int, Style)>, turns: seq<(int, string, Style)>, answered: set<int>)
    requires Handshake(s, threads, turns, answered)
    requires AnswerTo(event).Some? ==> AnswerTo(event).value !in answered
    ensures var (after, more) := Step(s, event);
      var now := if AnswerTo(event).Some? then answered + {AnswerTo(event).value} else answered;
      Handshake(after, threads + Collect(more, ThreadStarts), turns + Collect(more, TurnStarts), now)
  {
    hide Collect, SteerAll, PollAll;
    CollectNone(ThreadStarts);
    CollectNone(TurnStarts);
    assert threads + [] == threads && turns + [] == turns;
    match event
    case Poll(batch) =>
      PollAllConserves(s, batch);
      ControlsKeepHandshake(s, Step(s, event).0, Step(s, event).1, threads, turns, answered);
    case Message(Response(Number(n), Failure(detail))) =>
      FailureKeepsHandshake(s, n, detail, threads, turns, answered);
    case Message(Response(Number(n), Success(thread, turn))) =>
      SuccessKeepsHandshake(s, n, Success(thread, turn), threads, turns, answered);
    case Message(TurnStarted(turn)) =>
      var moved := s.(turnId := TurnIdAfter(s, turn), workStarted := true);
      FlushConserves(moved);
      ControlsKeepHandshake(moved, Step(s, event).0, Step(s, event).1, threads, turns, answered);
    case Message(ServerRequest(id, _)) =>
      CollectOne(Answer(id), ThreadStarts);
      CollectOne(Answer(id), TurnStarts);
    case _ =>
  }

  lemma AnswersOnceInit(events: seq<Event>)
    requires events != [] && AnswersOnce(events)
    ensures AnswersOnce(Text.Init(events))
    ensures var last := AnswerTo(Text.Last(events));
      && (last.Some? ==> last.value !in Answered(Text.Init(events)))
      && Answered(events) == Answered(Text.Init(events)) + if last.Some? then {last.value} else {}
  {
  }

  lemma {:induction false} RunKeepsHandshake(events: seq<Event>)
    requires AnswersOnce(events)
    ensures Handshake(StateAfter(events), Collect(Sent(events), ThreadStarts),
                      Collect(Sent(events), TurnStarts), Answered(events))
  {
    if events != [] {
      var earlier, event := Text.Init(events), Text.Last(events);
      AnswersOnceInit(events);
      RunKeepsHandshake(earlier);
      var (after, more) := Step(StateAfter(earlier), event);
      CollectAppend(Sent(earlier), more, ThreadStarts);
      CollectAppend(Sent(earlier), more, TurnStarts);
      StepKeepsHandshake(StateAfter(earlier), event, Collect(Sent(earlier), ThreadStarts),
                         Collect(Sent(earlier), TurnStarts), Answered(earlier));
    }
  }

  /** At most two requests per stage, in different spellings and with ids 2 to 5; a turn
      only ever starts on a named thread. */
  lemma HandshakeIsBounded(events: seq<Event>)
    requires AnswersOnce(events)
    ensures var threads, turns := Collect(Sent(events), ThreadStarts), Collect(Sent(events), TurnStarts);
      && |threads| <= 2 && |turns| <= 2
      && (|threads| == 2 ==> threads[0].1 != threads[1].1)
      && (|turns| == 2 ==> turns[0].2 != turns[1].2)
      && (forall i :: 0 <= i < |threads| ==> threads[i].0 == 2 + i)
      && (forall i :: 0 <= i < |turns| ==> turns[i].0 == 2 + |threads| + i <= 5)
      && (forall i :: 0 <= i < |turns| ==> turns[i].1 == StateAfter(events).threadId != "")
  {
    RunKeepsHandshake(events);
  }

  // ----- Control requests cannot disturb the session -----

  /** Control ids count up from 100, so all request ids of a run differ. */
  lemma {:induction false} ControlIdsCountUp(events: seq<Event>)
    ensures var ids := Collect(Sent(events), ControlIds);
      && StateAfter(events).nextId == 100 + |ids|
      && forall i :: 0 <= i < |ids| ==> ids[i] == 100 + i
  {
    if events != [] {
      var earlier, event := Text.Init(events), Text.Last(events);
      ControlIdsCountUp(earlier);
      var s := StateAfter(earlier);
      var (after, more) := Step(s, event);
      CollectAppend(Sent(earlier), more, ControlIds);
      StepCountsUp(s, event);
    }
  }

  ghost predicate CountsUp(s: State, after: State, sent: seq<Outgoing>) {
    && after.nextId == s.nextId + |Collect(sent, ControlIds)|
    && forall i :: 0 <= i < |Collect(sent, ControlIds)| ==> Collect(sent, ControlIds)[i] == s.nextId + i
  }

  lemma TurnCountsUp(s: State, turn: Option<string>)
    ensures CountsUp(s, OnTurn(s, turn).0, OnTurn(s, turn).1.outbound)
  {
    var named := TurnIdAfter(s, turn);
    FlushConserves(s.(turnId := named, workStarted := named != ""));
  }

  lemma ThreadCountsUp(s: State, thread: Option<string>)
    ensures CountsUp(s, OnThread(s, thread).0, OnThread(s, thread).1.outbound)
  {
  }

  lemma SuccessCountsUp(s: State, id: Id, reply: Reply)
    requires reply.Success?
    ensures CountsUp(s, OnSuccess(s, id, reply).0, OnSuccess(s, id, reply).1.outbound)
  {
    var popped := ForgetControl(s, id);
    TurnCountsUp(popped, reply.turn);
    ThreadCountsUp(popped, reply.thread);
    SmallLogHasNoControls([Initialized, StartThread(popped).1]);
  }

  lemma StepCountsUp(s: State, event: Event)
    ensures CountsUp(s, Step(s, event).0, Step(s, event).1)
  {
    match event
    case Poll(batch) => PollAllConserves(s, batch);
    case Message(TurnStarted(turn)) =>
      FlushConserves(s.(turnId := TurnIdAfter(s, turn), workStarted := true));
    case Message(Response(id, Success(thread, turn))) => SuccessCountsUp(s, id, Success(thread, turn));
    case Message(Response(id, Failure(detail))) => SmallLogHasNoControls(OnFailure(s, id, detail).1.outbound);
    case Message(_) => SmallLogHasNoControls(Step(s, event).1);
  }

  lemma SmallLogHasNoControls(log: seq<Outgoing>)
    ensures |log| <= 2 && (forall i :: 0 <= i < |log| ==> ControlIds(log[i]) == None) ==> Collect(log, ControlIds) == []
  {
  }

  /** A rejected steer or interrupt neither ends the session nor triggers a retry: it is
      only crossed off. */
  lemma ControlFailureIsHarmless(events: seq<Event>, n: int, detail: string)
    requires AnswersOnce(events) && n in StateAfter(events).controls
    ensures var s := StateAfter(events);
      OnMessage(s, Response(Number(n), Failure(detail))) == (s.(controls := s.controls - {n}), QUIET)
  {
    RunKeepsHandshake(events);
  }

  // ----- A server that opens the thread before the turn -----

  ghost predicate ThreadFirst(events: seq<Event>) {
    forall k :: 0 <= k < |events| && events[k].Message? && events[k].message.TurnStarted? ==>
      StateAfter(events[..k]).threadId != ""
  }

  lemma ThreadFirstInit(events: seq<Event>)
    requires events != [] && ThreadFirst(events)
    ensures ThreadFirst(Text.Init(events))
    ensures Text.Last(events).Message? && Text.Last(events).message.TurnStarted? ==>
      StateAfter(Text.Init(events)).threadId != ""
  {
    var earlier := Text.Init(events);
    assert events[..|events| - 1] == earlier;
    forall k | 0 <= k < |earlier| && earlier[k].Message? && earlier[k].message.TurnStarted?
      ensures StateAfter(earlier[..k]).threadId != ""
    {
      assert events[..k] == earlier[..k] && events[k] == earlier[k];
    }
  }

  lemma {:induction false} TurnIdNeedsThread(events: seq<Event>)
    requires AnswersOnce(events) && ThreadFirst(events)
    ensures StateAfter(events).turnId != "" ==> StateAfter(events).threadId != ""
    ensures NeverLate(events)
  {
    if events != [] {
      var earlier, event := Text.Init(events), Text.Last(events);
      AnswersOnceInit(events);
      ThreadFirstInit(events);
      TurnIdNeedsThread(earlier);
      RunKeepsHandshake(earlier);
      var s := StateAfter(earlier);
      assert !LateThread(s, event);
      assert events[..|events| - 1] == earlier;
      forall k | 0 <= k < |events|
        ensures !LateThread(StateAfter(events[..k]), events[k])
      {
        if k < |earlier| {
          assert events[..k] == earlier[..k] && events[k] == earlier[k];
        }
      }
      IdsStay(s, event, Answered(earlier));
    }
  }

  lemma IdsStay(s: State, event: Event, answered: set<int>)
    requires s.threadId != "" ==> s.threadIds <= answered
    requires s.turnIds != {} ==> s.threadId != ""
    requires AnswerTo(event).Some? ==> AnswerTo(event).value !in answered
    requires s.turnId != "" ==> s.threadId != ""
    requires event.Message? && event.message.TurnStarted? ==> s.threadId != ""
    ensures var after := Step(s, event).0; after.turnId != "" ==> after.threadId != ""
  {
    hide Collect, SteerAll, PollAll;
    match event
    case Poll(batch) => PollAllConserves(s, batch);
    case Message(TurnStarted(turn)) =>
      FlushConserves(s.(turnId := TurnIdAfter(s, turn), workStarted := true));
    case Message(Response(id, Success(thread, turn))) =>
      var popped := ForgetControl(s, id);
      var named := TurnIdAfter(popped, turn);
      FlushConserves(popped.(turnId := named, workStarted := named != ""));
    case Message(_) =>
  }

  /** With such a server, steering is delivered exactly in the order it was polled. */
  lemma OrderlySteering(events: seq<Event>)
    requires AnswersOnce(events) && ThreadFirst(events)
    ensures InOrder(events) && Drained(StateAfter(events))
  {
    TurnIdNeedsThread(events);
    SteeringInOrder(events);
  }

  // ----- Work, once started, stays started -----

  /** The turn/start answer that leaves the session without a turn id. */
  predicate ForgetsTurn(s: State, event: Event) {
    match event
    case Message(Response(Number(n), Success(_, turn))) =>
      n !in s.controls && n != 1 && n !in s.threadIds && n in s.turnIds && TurnIdAfter(s, turn) == ""
    case _ => false
  }

  /** `work_started` is taken back by exactly one kind of step. */
  lemma WorkStartedExactly(s: State, event: Event)
    requires s.workStarted
    ensures Step(s, event).0.workStarted <==> !ForgetsTurn(s, event)
  {
    match event
    case Poll(batch) => PollAllConserves(s, batch);
    case Message(TurnStarted(turn)) =>
      FlushConserves(s.(turnId := TurnIdAfter(s, turn), workStarted := true));
    case Message(Response(id, Success(thread, turn))) =>
      var popped := ForgetControl(s, id);
      var named := TurnIdAfter(popped, turn);
      FlushConserves(popped.(turnId := named, workStarted := named != ""));
    case Message(_) =>
  }
}
