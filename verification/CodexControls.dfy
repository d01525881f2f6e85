/** What a Codex session sends on behalf of the operator and in answer to the server
    (src/execraft/agents/codex_live.py), read off the log of a run. */
module CodexControls {
  import opened Json
  import opened CodexSession
  import opened CodexRuns
  import Text

  predicate ToTurn(o: Outgoing) {
    o.SteerTurn? || o.InterruptTurn?
  }

  /** Every steer and interrupt names the thread and the turn that are running when it is sent. */
  lemma ControlsNameTurn(s: State, event: Event, o: Outgoing)
    requires o in Step(s, event).1 && ToTurn(o)
    ensures var after := Step(s, event).0;
      o.thread == after.threadId != "" && o.turn == after.turnId != ""
  {
    hide Collect, SteerAll, PollAll;
    match event
    case Poll(batch) => PollAllConserves(s, batch);
    case Message(TurnStarted(turn)) =>
      var moved := s.(turnId := TurnIdAfter(s, turn), workStarted := true);
      FlushConserves(moved);
      FlushOnlyActive(moved);
    case Message(Response(id, Success(thread, turn))) =>
      var popped := ForgetControl(s, id);
      var named := TurnIdAfter(popped, turn);
      var moved := popped.(turnId := named, workStarted := named != "");
      FlushConserves(moved);
      FlushOnlyActive(moved);
    case Message(_) =>
  }

  lemma FlushOnlyActive(s: State)
    ensures Flush(s).1 != [] ==> s.threadId != "" && s.turnId != ""
  {
  }

  // ----- Interrupts -----

  function Interrupts(o: Outgoing): Option<()> {
    if o.InterruptTurn? then Some(()) else None
  }

  function InterruptsIn(batch: seq<Control>): nat {
    if batch == [] then 0 else InterruptsIn(Text.Init(batch)) + if Text.Last(batch).Interrupt? then 1 else 0
  }

  /** The interrupts the operator has polled while a turn was running. */
  function InterruptsAsked(events: seq<Event>): nat {
    if events == [] then 0
    else
      var s := StateAfter(Text.Init(events));
      InterruptsAsked(Text.Init(events))
      + match Text.Last(events)
        case Poll(batch) => if s.threadId != "" && s.turnId != "" then InterruptsIn(batch) else 0
        case _ => 0
  }

  lemma {:induction false} NothingPicked<T>(log: seq<Outgoing>, pick: Outgoing -> Option<T>)
    requires forall o :: o in log ==> pick(o) == None
    ensures Collect(log, pick) == []
  {
    if log != [] {
      NothingPicked(Text.Init(log), pick);
    }
  }

  lemma {:induction false} SteersSteer(s: State, texts: seq<string>)
    ensures forall o :: o in SteerAll(s, texts).1 ==> o.SteerTurn?
  {
    if texts != [] {
      SteersSteer(s, Text.Init(texts));
    }
  }

  lemma {:induction false} PollsAddressTurns(s: State, batch: seq<Control>)
    ensures forall o :: o in PollAll(s, batch).1 ==> ToTurn(o)
  {
    if batch != [] {
      PollsAddressTurns(s, Text.Init(batch));
    }
  }

  /** A message never makes the client interrupt, and an answer goes out only to a request. */
  lemma MessageSends(s: State, message: Incoming)
    ensures var sent := OnMessage(s, message).1.outbound;
      && (forall o :: o in sent ==> !o.InterruptTurn?)
      && (if message.ServerRequest? then sent == [Answer(message.id)] else forall o :: o in sent ==> !o.Answer?)
  {
    hide SteerAll;
    match message
    case TurnStarted(turn) => FlushSteers(s.(turnId := TurnIdAfter(s, turn), workStarted := true));
    case Response(id, Success(thread, turn)) =>
      var popped := ForgetControl(s, id);
      var named := TurnIdAfter(popped, turn);
      FlushSteers(popped.(turnId := named, workStarted := named != ""));
    case _ =>
  }

  lemma FlushSteers(s: State)
    ensures forall o :: o in Flush(s).1 ==> o.SteerTurn?
  {
    if Active(s) {
      SteersSteer(s.(pending := []), s.pending);
    }
  }

  lemma {:induction false} PollInterrupts(s: State, batch: seq<Control>)
    ensures |Collect(PollAll(s, batch).1, Interrupts)| == if s.threadId != "" && s.turnId != "" then InterruptsIn(batch) else 0
  {
    hide Collect;
    CollectNone(Interrupts);
    if batch != [] {
      var earlier := Text.Init(batch);
      PollInterrupts(s, earlier);
      PollAllConserves(s, earlier);
      var (before, sent) := PollAll(s, earlier);
      var more := PollOne(before, Text.Last(batch)).1;
      CollectAppend(sent, more, Interrupts);
      if more != [] {
        CollectOne(more[0], Interrupts);
        assert more == [more[0]];
      }
    }
  }

  /** Each interrupt polled while a turn is running is sent, once, and no other. */
  lemma {:induction false} InterruptsExactly(events: seq<Event>)
    ensures |Collect(Sent(events), Interrupts)| == InterruptsAsked(events)
  {
    hide Collect, PollAll, OnMessage;
    if events == [] {
      CollectNone(Interrupts);
    } else {
      var earlier, event := Text.Init(events), Text.Last(events);
      var s := StateAfter(earlier);
      InterruptsExactly(earlier);
      CollectAppend(Sent(earlier), Step(s, event).1, Interrupts);
      match event
      case Poll(batch) => PollInterrupts(s, batch);
      case Message(message) =>
        MessageSends(s, message);
        NothingPicked(Step(s, event).1, Interrupts);
    }
  }

  // ----- Answers to the server -----

  function AnswersTo(o: Outgoing): Option<Id> {
    if o.Answer? then Some(o.to) else None
  }

  function Requested(events: seq<Event>): seq<Id> {
    if events == [] then []
    else
      Requested(Text.Init(events))
      + match Text.Last(events) case Message(ServerRequest(id, _)) => [id] case _ => []
  }

  /** Every request of the server is answered, once and in order, and nothing else is. */
  lemma {:induction false} AnswersExactly(events: seq<Event>)
    ensures Collect(Sent(events), AnswersTo) == Requested(events)
  {
    hide Collect, PollAll, OnMessage;
    if events == [] {
      CollectNone(AnswersTo);
    } else {
      var earlier, event := Text.Init(events), Text.Last(events);
      var s := StateAfter(earlier);
      AnswersExactly(earlier);
      CollectAppend(Sent(earlier), Step(s, event).1, AnswersTo);
      match event
      case Poll(batch) =>
        PollsAddressTurns(s, batch);
        NothingPicked(Step(s, event).1, AnswersTo);
      case Message(message) =>
        MessageSends(s, message);
        if message.ServerRequest? {
          CollectOne(Answer(message.id), AnswersTo);
        } else {
          NothingPicked(Step(s, event).1, AnswersTo);
        }
    }
  }
}
