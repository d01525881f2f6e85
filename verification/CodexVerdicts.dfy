/** How a Codex attempt is judged (src/execraft/agents/codex_live.py and codex_adapter.py), read
    off the messages of a run against a server that answers each request once. */
module CodexVerdicts {
  import opened Json
  import opened CodexSession
  import opened CodexRuns
  import opened CodexHandshake
  import opened Attempts
  import Text

  // ----- Which answers are to control requests -----

  lemma TurnControls(s: State, turn: Option<string>)
    ensures var after := OnTurn(s, turn).0;
      && after.nextId >= s.nextId
      && forall n :: n in after.controls <==> n in s.controls || s.nextId <= n < after.nextId
  {
    hide SteerAll, Collect;
    var named := TurnIdAfter(s, turn);
    FlushConserves(s.(turnId := named, workStarted := named != ""));
  }

  /** A step adds the control requests it sends, and drops at most the one it answers. */
  lemma StepControls(s: State, event: Event)
    ensures var after := Step(s, event).0;
      && after.nextId >= s.nextId
      && forall n :: AnswerTo(event) != Some(n) ==> (n in after.controls <==> n in s.controls || s.nextId <= n < after.nextId)
  {
    hide SteerAll, PollAll, Collect;
    match event
    case Poll(batch) => PollAllConserves(s, batch);
    case Message(TurnStarted(turn)) => FlushConserves(s.(turnId := TurnIdAfter(s, turn), workStarted := true));
    case Message(Response(id, Success(thread, turn))) =>
      hide OnTurn;
      TurnControls(ForgetControl(s, id), turn);
    case Message(_) =>
  }

  lemma {:induction false} OpenControls(events: seq<Event>, n: int)
    requires n !in Answered(events)
    ensures n in StateAfter(events).controls <==> 100 <= n < StateAfter(events).nextId
    ensures StateAfter(events).nextId >= 100
  {
    if events != [] {
      hide Step;
      var earlier := Text.Init(events);
      assert events == earlier + [Text.Last(events)];
      OpenControls(earlier, n);
      StepControls(StateAfter(earlier), Text.Last(events));
    }
  }

  /** The ids of the steer and interrupt requests sent so far. */
  function ControlsAsked(events: seq<Event>): seq<int> {
    Collect(Sent(events), ControlIds)
  }

  lemma ControlAnswered(events: seq<Event>, n: int)
    requires n !in Answered(events)
    ensures n in StateAfter(events).controls <==> n in ControlsAsked(events)
  {
    hide Run, Collect;
    OpenControls(events, n);
    ControlIdsCountUp(events);
    var ids := ControlsAsked(events);
    if 100 <= n < 100 + |ids| {
      assert ids[n - 100] == n;
    }
  }

  // ----- What ends a session, and what fails it -----

  predicate Among(n: int, starts: seq<(int, Style)>) {
    exists i :: 0 <= i < |starts| && starts[i].0 == n
  }

  /** A failure answer to a request, other than a control request or one that is tried again. */
  ghost predicate FailsWith(events: seq<Event>, k: nat, detail: string) {
    && k < |events|
    && events[k].Message? && events[k].message.Response? && events[k].message.reply == Failure(detail)
    && !RetriesThread(events, k) && !RetriesTurn(events, k)
    && (events[k].message.id.Number? ==> events[k].message.id.n !in ControlsAsked(events[..k]))
  }

  /** A success answer to a thread/start that names no thread. */
  ghost predicate NamesNoThread(events: seq<Event>, k: nat) {
    && k < |events|
    && match events[k]
       case Message(Response(Number(n), Success(thread, _))) =>
         Among(n, Threads(events[..k])) && (thread == None || thread == Some(""))
       case _ => false
  }

  ghost predicate TurnEnds(events: seq<Event>, k: nat) {
    k < |events| && events[k].Message? && events[k].message.TurnCompleted?
  }

  /** A session is completed by the end of its turn, a failed request, or a thread without a name. */
  ghost predicate Ends(events: seq<Event>, k: nat) {
    TurnEnds(events, k) || NamesNoThread(events, k) || exists detail :: FailsWith(events, k, detail)
  }

  ghost predicate FailsAs(events: seq<Event>, k: nat, text: string) {
    || FailsWith(events, k, text)
    || (NamesNoThread(events, k) && text == "Codex app-server did not return a thread id")
    || (k < |events| && events[k] == Message(TurnCompleted(Failed(text))))
    || (k < |events| && events[k] == Message(TurnCompleted(Interrupted))
        && text == "Codex turn was interrupted by the operator")
  }

  lemma FailureEnds(events: seq<Event>, k: nat, id: Id, detail: string)
    requires AnswersOnce(events) && k < |events| && events[k] == Message(Response(id, Failure(detail)))
    ensures FailureAt(events, k) == (if FailsWith(events, k, detail) then Some(detail) else None)
    ensures Completes(StateAfter(events[..k]), events[k]) <==> FailsWith(events, k, detail)
  {
    hide Collect, AnswersOnce, Run;
    var earlier := events[..k];
    AnswersOnceTo(events, k);
    RunKeepsHandshake(earlier);
    var s, threads, turns := StateAfter(earlier), Threads(earlier), Turns(earlier);
    if id.Number? {
      ControlAnswered(earlier, id.n);
      hide ControlsAsked, SaysUnknown;
      FailureBrings(s, id.n, detail, threads, turns, Answered(earlier));
      if turns != [] && id.n == turns[0].0 && SaysUnknown(detail) {
        FirstTurnOpen(earlier);
        StartedExactly(earlier);
      }
    }
  }

  lemma SuccessEnds(events: seq<Event>, k: nat, n: int, thread: Option<string>, turn: Option<string>)
    requires AnswersOnce(events) && k < |events| && events[k] == Message(Response(Number(n), Success(thread, turn)))
    ensures FailureAt(events, k) == (if NamesNoThread(events, k) then Some(NO_THREAD) else None)
    ensures Completes(StateAfter(events[..k]), events[k]) <==> NamesNoThread(events, k)
  {
    hide Collect, AnswersOnce, Run, SteerAll;
    var earlier := events[..k];
    AnswersOnceTo(events, k);
    RunKeepsHandshake(earlier);
    RequestIds(StateAfter(earlier), n, Threads(earlier), Turns(earlier), Answered(earlier));
    NotInitialize(StateAfter(earlier), Threads(earlier), Turns(earlier), Answered(earlier));
    ThreadsAreLow(StateAfter(earlier), Threads(earlier), Turns(earlier), Answered(earlier), n);
    hide Handshake;
  }

  lemma ThreadsAreLow(
    s: State, threads: seq<(int, Style)>, turns: seq<(int, string, Style)>, answered: set<int>, n: int)
    requires Handshake(s, threads, turns, answered)
    ensures n in s.threadIds ==> n !in s.controls && n != 1
    ensures n in s.turnIds ==> n !in s.controls && n != 1 && n !in s.threadIds
  {
  }

  /** Which events complete the session, and which are recorded as its failure. */
  lemma EndsExactly(events: seq<Event>, k: nat)
    requires AnswersOnce(events) && k < |events|
    ensures Completes(StateAfter(events[..k]), events[k]) <==> Ends(events, k)
    ensures forall text :: FailureAt(events, k) == Some(text) <==> FailsAs(events, k, text)
  {
    match events[k]
    case Message(Response(id, Failure(detail))) =>
      FailureEnds(events, k, id, detail);
      hide FailureAt, Completes, RetriesThread, RetriesTurn;
      assert forall other :: FailsWith(events, k, other) ==> other == detail;
    case Message(Response(Number(n), Success(thread, turn))) =>
      SuccessEnds(events, k, n, thread, turn);
      hide FailureAt, Completes;
    case _ =>
      hide Run, SteerAll, PollAll;
  }

  // ----- What is left of the work that was started -----

  predicate AnswersTurn(event: Event, turns: seq<(int, string, Style)>) {
    match event
    case Message(Response(Number(n), Success(_, _))) => exists i :: 0 <= i < |turns| && turns[i].0 == n
    case _ => false
  }

  /** The turn id the server has last named, in a report or in the answer to a turn/start. */
  function NamedTurn(events: seq<Event>): string {
    if events == [] then ""
    else NamedBy(Text.Last(events), Turns(Text.Init(events)), NamedTurn(Text.Init(events)))
  }

  function NamedBy(event: Event, turns: seq<(int, string, Style)>, before: string): string {
    match event
    case Message(TurnStarted(Some(turn))) => turn
    case Message(Response(_, Success(_, Some(turn)))) => if AnswersTurn(event, turns) then turn else before
    case _ => before
  }

  /** Work is under way once the server reports the turn; the answer to a turn/start settles
      it by whether a turn has been named. */
  function Underway(events: seq<Event>): bool {
    if events == [] then false
    else UnderwayBy(Text.Last(events), Turns(Text.Init(events)), NamedTurn(events), Underway(Text.Init(events)))
  }

  function UnderwayBy(event: Event, turns: seq<(int, string, Style)>, turn: string, before: bool): bool {
    if event.Message? && event.message.TurnStarted? then true
    else if AnswersTurn(event, turns) then turn != ""
    else before
  }

  lemma {:induction false} UnderwayExactly(events: seq<Event>)
    requires AnswersOnce(events)
    ensures StateAfter(events).workStarted <==> Underway(events)
    ensures StateAfter(events).turnId == NamedTurn(events)
  {
    if events != [] {
      var earlier := Text.Init(events);
      AnswersOnceInit(events);
      UnderwayExactly(earlier);
      LastWork(events);
      hide StateAfter, NamedBy, UnderwayBy, AnswersOnce, Turns;
    }
  }

  lemma LastWork(events: seq<Event>)
    requires events != [] && AnswersOnce(events)
    ensures WorkAfter(StateAfter(Text.Init(events)), Text.Last(events), Turns(Text.Init(events)), StateAfter(events))
  {
    var earlier, event := Text.Init(events), Text.Last(events);
    AnswersOnceInit(events);
    RunKeepsHandshake(earlier);
    hide Step, Handshake, Collect, AnswersOnce, WorkAfter;
    WorkOn(StateAfter(earlier), event, Threads(earlier), Turns(earlier), Answered(earlier));
  }

  predicate WorkAfter(s: State, event: Event, turns: seq<(int, string, Style)>, after: State) {
    && after.turnId == NamedBy(event, turns, s.turnId)
    && after.workStarted == UnderwayBy(event, turns, after.turnId, s.workStarted)
  }

  lemma WorkOn(s: State, event: Event, threads: seq<(int, Style)>, turns: seq<(int, string, Style)>, answered: set<int>)
    requires Handshake(s, threads, turns, answered)
    requires AnswerTo(event).Some? ==> AnswerTo(event).value !in answered
    ensures WorkAfter(s, event, turns, Step(s, event).0)
  {
    hide Handshake, Collect, SteerAll, PollAll, OnFailure, OnSuccess;
    match event
    case Poll(batch) => PollAllConserves(s, batch);
    case Message(TurnStarted(turn)) => FlushConserves(s.(turnId := TurnIdAfter(s, turn), workStarted := true));
    case Message(Response(id, Failure(detail))) => FailureKeepsTurn(s, id, detail);
    case Message(Response(Other(tag), Success(thread, turn))) => OtherKeepsTurn(s, tag, Success(thread, turn));
    case Message(Response(Number(n), Success(thread, turn))) => SuccessNamesTurn(s, n, thread, turn, threads, turns, answered);
    case Message(_) =>
  }

  lemma FailureKeepsTurn(s: State, id: Id, detail: string)
    ensures var after := OnFailure(s, id, detail).0; after.turnId == s.turnId && after.workStarted == s.workStarted
  {
    hide VariantError;
  }

  lemma OtherKeepsTurn(s: State, tag: string, reply: Reply)
    requires reply.Success?
    ensures OnSuccess(s, Other(tag), reply).0 == s
  {
  }

  lemma SuccessNamesTurn(
    s: State, n: int, thread: Option<string>, turn: Option<string>,
    threads: seq<(int, Style)>, turns: seq<(int, string, Style)>, answered: set<int>)
    requires Handshake(s, threads, turns, answered)
    ensures var after := OnSuccess(s, Number(n), Success(thread, turn)).0;
      if exists i :: 0 <= i < |turns| && turns[i].0 == n
      then after.turnId == (if turn.Some? then turn.value else s.turnId) && (after.workStarted <==> after.turnId != "")
      else after.turnId == s.turnId && after.workStarted == s.workStarted
  {
    RequestIds(s, n, threads, turns, answered);
    ThreadsAreLow(s, threads, turns, answered, n);
    hide Handshake, Collect, SteerAll;
    var popped := ForgetControl(s, Number(n));
    var named := TurnIdAfter(popped, turn);
    FlushConserves(popped.(turnId := named, workStarted := named != ""));
  }

  // ----- Verdicts -----

  ghost predicate EverEnds(events: seq<Event>) {
    exists k: nat :: k < |events| && Ends(events, k)
  }

  ghost predicate Fails(events: seq<Event>, k: nat) {
    exists text :: FailsAs(events, k, text)
  }

  ghost predicate LastFailsAs(events: seq<Event>, k: nat, text: string) {
    k < |events| && FailsAs(events, k, text) && forall j: nat :: k < j < |events| ==> !Fails(events, j)
  }

  lemma CompletedExactly(events: seq<Event>)
    requires AnswersOnce(events)
    ensures CodexCompleted(events) <==> EverEnds(events)
  {
    hide Ends, Completes, StateAfter, AnswersOnce;
    forall k: nat | k < |events|
      ensures Completes(StateAfter(events[..k]), events[k]) <==> Ends(events, k)
    {
      EndsExactly(events, k);
    }
  }

  lemma LastExactly(events: seq<Event>, k: nat)
    requires AnswersOnce(events)
    ensures forall text :: LastFailure(events, k) && FailureAt(events, k) == Some(text) <==> LastFailsAs(events, k, text)
  {
    hide FailsAs, FailureAt, AnswersOnce, Fails;
    forall j: nat | j < |events| {
      FailureIs(events, j);
    }
  }

  lemma FailureIs(events: seq<Event>, k: nat)
    requires AnswersOnce(events) && k < |events|
    ensures FailureAt(events, k).None? <==> !Fails(events, k)
    ensures forall text :: FailureAt(events, k) == Some(text) <==> FailsAs(events, k, text)
  {
    EndsExactly(events, k);
    hide FailsAs, FailureAt;
    if FailureAt(events, k).Some? {
      assert FailsAs(events, k, FailureAt(events, k).value);
    }
  }

  /** An attempt succeeds exactly when the session closed after an event that ends it, and the
      last failure, if any, has no text. */
  lemma SucceedsExactly(events: seq<Event>, exit: Exit)
    requires AnswersOnce(events)
    ensures VerdictOf(CodexAttempt(events, exit)) == Succeeded <==>
      exit == Closed && EverEnds(events) && forall k: nat, text :: LastFailsAs(events, k, text) ==> text == ""
  {
    CodexSucceedsExactly(events, exit);
    CompletedExactly(events);
    hide VerdictOf, CodexAttempt, LastFailsAs, LastFailure, FailureAt, CodexCompleted, EverEnds, AnswersOnce;
    forall k: nat {
      LastExactly(events, k);
    }
    if k: nat, text :| LastFailsAs(events, k, text) && text != "" {
      assert LastFailure(events, k) && FailureAt(events, k) == Some(text);
    }
    if k: nat :| LastFailure(events, k) && FailureAt(events, k) != Some("") {
      LastFailureIs(events, k);
      assert LastFailsAs(events, k, FailureAt(events, k).value);
    }
  }

  lemma LastFailureIs(events: seq<Event>, k: nat)
    requires LastFailure(events, k)
    ensures FailureAt(events, k).Some?
  {
  }

  /** It is given up for the one-shot command exactly when no work is under way and the session
      broke over a missing protocol, or closed with nothing to end it. */
  lemma FallsBackExactly(events: seq<Event>, exit: Exit)
    requires AnswersOnce(events)
    ensures VerdictOf(CodexAttempt(events, exit)) == Unavailable <==>
      !Underway(events) && (exit == Failing(true) || (exit == Closed && !EverEnds(events)))
  {
    UnderwayExactly(events);
    CompletedExactly(events);
    LastOfHistory(events);
    hide EverEnds, CodexCompleted, StateAfter, Underway, AnswersOnce, CodexHistory;
  }

  lemma LastOfHistory(events: seq<Event>)
    ensures |CodexHistory(events)| == |events| + 1 && CodexHistory(events)[|events|] == StateAfter(events).workStarted
  {
    hide StateAfter;
    assert events[..|events|] == events;
  }

  /** Started work is forgotten exactly where it was under way and is no longer. */
  lemma ForgottenExactly(events: seq<Event>, k: nat)
    requires AnswersOnce(events) && k < |events|
    ensures ForgottenAt(events, k) <==> Underway(events[..k]) && !Underway(events[..k + 1])
  {
    AnswersOnceTo(events, k);
    AnswersOnceTo(events, k + 1);
    UnderwayExactly(events[..k]);
    UnderwayExactly(events[..k + 1]);
    hide StateAfter, ForgetsTurn, AnswersOnce, Underway;
    if StateAfter(events[..k]).workStarted {
      ForgottenOnStep(events, k);
    }
  }
}
