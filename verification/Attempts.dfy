/** The fallback chains of `execute` in src/execraft/agents/codex_adapter.py and
    src/execraft/agents/claude_code_adapter.py: when a prompt may be given to the
    provider again. */
module Attempts {
  import opened Json
  import C = CodexSession
  import R = CodexRuns

  // ----- One live attempt -----

  /** How `managed_jsonl_session` came back. */
  datatype SessionEnd =
    | Terminated
    | TimedOut
      /** An OSError or RuntimeError; `unavailable` when its text names a missing protocol. */
    | Raised(unavailable: bool)
    | Ended(completedByProtocol: bool)

  /** What the process and its supervision do; a session that closes has ended, by protocol if
      a message completed it. */
  datatype Exit = Killed | Late | Failing(unavailable: bool) | Closed

  function EndOf(exit: Exit, completed: bool): SessionEnd {
    match exit
    case Killed => Terminated
    case Late => TimedOut
    case Failing(unavailable) => Raised(unavailable)
    case Closed => Ended(completed)
  }

  datatype Verdict = Succeeded | Broken | Unavailable

  /** The decision at the end of `_execute_live`, the same in both adapters. */
  function LiveVerdict(workStarted: bool, failed: bool, end: SessionEnd): Verdict {
    match end
    case Terminated => Broken
    case TimedOut => Broken
    case Raised(unavailable) => if !workStarted && unavailable then Unavailable else Broken
    case Ended(false) => if !workStarted then Unavailable else Broken
    case Ended(true) => if failed then Broken else Succeeded
  }

  /** A live attempt: `work_started` initially and after each message or poll, whether
      the controller recorded an error, and how the session ended. */
  datatype Attempt =
    | Live(history: seq<bool>, failed: bool, end: SessionEnd)
    | OneShot

  predicate Happened(attempt: Attempt) {
    attempt.Live? ==> attempt.history != []
  }

  function VerdictOf(attempt: Attempt): Verdict
    requires attempt.Live? && Happened(attempt)
  {
    LiveVerdict(attempt.history[|attempt.history| - 1], attempt.failed, attempt.end)
  }

  predicate ObservedWork(attempt: Attempt) {
    attempt.Live? && true in attempt.history
  }

  /** `work_started` never goes back to false. */
  ghost predicate Sticky(history: seq<bool>) {
    forall i :: 0 <= i < |history| - 1 && history[i] ==> history[i + 1]
  }

  lemma {:induction false} StickyToTheEnd(history: seq<bool>, i: nat)
    requires Sticky(history) && i < |history| && history[i]
    ensures history[|history| - 1]
    decreases |history| - i
  {
    if i < |history| - 1 {
      StickyToTheEnd(history, i + 1);
    }
  }

  /** An attempt is given up as unavailable only if the provider never started work. */
  lemma UnavailableIsUntouched(attempt: Attempt)
    requires attempt.Live? && Happened(attempt) && Sticky(attempt.history)
    requires VerdictOf(attempt) == Unavailable
    ensures !ObservedWork(attempt)
  {
    if ObservedWork(attempt) {
      var i :| 0 <= i < |attempt.history| && attempt.history[i];
      StickyToTheEnd(attempt.history, i);
    }
  }

  // ----- Chains of attempts -----

  /** Every attempt but the last was live and given up as unavailable. */
  ghost predicate Chain(log: seq<Attempt>) {
    && log != []
    && (forall k :: 0 <= k < |log| ==> Happened(log[k]))
    && (forall k :: 0 <= k < |log| - 1 ==> log[k].Live? && VerdictOf(log[k]) == Unavailable)
    && (log[|log| - 1].Live? ==> VerdictOf(log[|log| - 1]) != Unavailable)
  }

  /** Over the whole chain at most the last attempt ever saw work start: no prompt is
      replayed after the provider began to act on it. */
  lemma NoPromptReplay(log: seq<Attempt>)
    requires Chain(log) && forall k :: 0 <= k < |log| && log[k].Live? ==> Sticky(log[k].history)
    ensures forall k :: 0 <= k < |log| - 1 ==> !ObservedWork(log[k])
  {
    forall k | 0 <= k < |log| - 1
      ensures !ObservedWork(log[k])
    {
      UnavailableIsUntouched(log[k]);
    }
  }

  // ----- Codex histories -----

  function CodexHistory(events: seq<R.Event>): seq<bool> {
    seq(|events| + 1, k requires 0 <= k <= |events| => R.StateAfter(events[..k]).workStarted)
  }

  /** The message of the step ends the session by protocol. */
  predicate Completes(s: C.State, event: R.Event) {
    event.Message? && C.OnMessage(s, event.message).1.completed
  }

  predicate CodexCompleted(events: seq<R.Event>) {
    exists k :: 0 <= k < |events| && Completes(R.StateAfter(events[..k]), events[k])
  }

  function CodexAttempt(events: seq<R.Event>, exit: Exit): Attempt {
    Live(CodexHistory(events), R.StateAfter(events).error != "", EndOf(exit, CodexCompleted(events)))
  }

  /** A turn is forgotten, after work had started, at step `k`. */
  predicate ForgottenAt(events: seq<R.Event>, k: nat)
    requires k < |events|
  {
    R.StateAfter(events[..k]).workStarted && R.ForgetsTurn(R.StateAfter(events[..k]), events[k])
  }

  lemma ForgottenOnStep(events: seq<R.Event>, k: nat)
    requires k < |events| && R.StateAfter(events[..k]).workStarted
    ensures R.StateAfter(events[..k + 1]).workStarted <==> !ForgottenAt(events, k)
  {
    hide R.Step, R.Run, R.ForgetsTurn;
    R.RunOn(events[..k], events[k]);
    assert events[..k + 1] == events[..k] + [events[k]];
    R.WorkStartedExactly(R.StateAfter(events[..k]), events[k]);
  }

  /** Codex keeps `work_started` exactly when no turn/start answer blanks the turn id. */
  lemma CodexStickyExactly(events: seq<R.Event>)
    ensures Sticky(CodexHistory(events)) <==> forall k :: 0 <= k < |events| ==> !ForgottenAt(events, k)
  {
    hide R.StateAfter, R.ForgetsTurn;
    var history := CodexHistory(events);
    forall k | 0 <= k < |events|
      ensures history[k] && !history[k + 1] <==> ForgottenAt(events, k)
    {
      if history[k] {
        ForgottenOnStep(events, k);
      }
    }
    if k :| 0 <= k < |events| && ForgottenAt(events, k) {
      assert history[k] && !history[k + 1];
    }
  }

  lemma CompletedOn(events: seq<R.Event>, event: R.Event)
    ensures CodexCompleted(events + [event]) <==> CodexCompleted(events) || Completes(R.StateAfter(events), event)
  {
    hide R.StateAfter, Completes;
    var more, n := events + [event], |events|;
    assert more[..n] == events;
    assert forall k :: 0 <= k < n ==> more[..k] == events[..k] && more[k] == events[k];
  }

  lemma CodexObserved(events: seq<R.Event>, exit: Exit)
    ensures ObservedWork(CodexAttempt(events, exit)) <==> exists k :: 0 <= k <= |events| && R.StateAfter(events[..k]).workStarted
  {
    var history := CodexHistory(events);
    forall k | 0 <= k <= |events|
      ensures history[k] <==> R.StateAfter(events[..k]).workStarted
    {
    }
    if k :| 0 <= k <= |events| && R.StateAfter(events[..k]).workStarted {
      assert history[k] in history;
    }
  }

  /** Codex falls back to its second attempt after work had started exactly when the server
      has blanked the turn id of started work. */
  lemma CodexReplaysExactly(events: seq<R.Event>, exit: Exit)
    requires VerdictOf(CodexAttempt(events, exit)) == Unavailable
    ensures ObservedWork(CodexAttempt(events, exit)) <==> exists k :: 0 <= k < |events| && ForgottenAt(events, k)
  {
    CodexStickyExactly(events);
    CodexObserved(events, exit);
    if k :| 0 <= k < |events| && ForgottenAt(events, k) {
      assert R.StateAfter(events[..k]).workStarted;
    } else {
      UnavailableIsUntouched(CodexAttempt(events, exit));
    }
  }

  /** What an event reports as the failure of the session. */
  function FailureOf(s: C.State, event: R.Event): Option<string> {
    match event
    case Message(TurnCompleted(Failed(text))) => Some(text)
    case Message(TurnCompleted(Interrupted)) => Some(C.INTERRUPTED)
    case Message(Response(id, Failure(detail))) =>
      if C.SandboxRetry(C.ForgetControl(s, id), id, detail).Some? || C.AnswersControl(s, id) then None else Some(detail)
    case Message(Response(Number(n), Success(thread, _))) =>
      if n !in s.controls && n != 1 && n in s.threadIds && (thread.None? || thread.value == "") then Some(C.NO_THREAD) else None
    case _ => None
  }

  lemma FailureRecorded(s: C.State, event: R.Event)
    ensures R.Step(s, event).0.error == match FailureOf(s, event) case Some(text) => text case None => s.error
  {
    hide C.Flush, C.PollAll, C.VariantError;
    match event
    case Poll(batch) => PollKeepsError(s, batch);
    case Message(TurnStarted(turn)) => FlushKeepsError(s.(turnId := C.TurnIdAfter(s, turn), workStarted := true));
    case Message(Response(id, Success(thread, turn))) =>
      var popped := C.ForgetControl(s, id);
      var named := C.TurnIdAfter(popped, turn);
      FlushKeepsError(popped.(turnId := named, workStarted := named != ""));
    case Message(_) =>
  }

  lemma FlushKeepsError(s: C.State)
    ensures C.Flush(s).0.error == s.error
  {
    hide R.Collect;
    R.FlushConserves(s);
  }

  lemma PollKeepsError(s: C.State, batch: seq<C.Control>)
    ensures C.PollAll(s, batch).0.error == s.error
  {
    hide R.Collect;
    R.PollAllConserves(s, batch);
  }

  function FailureAt(events: seq<R.Event>, k: nat): Option<string>
    requires k < |events|
  {
    FailureOf(R.StateAfter(events[..k]), events[k])
  }

  predicate LastFailure(events: seq<R.Event>, k: nat) {
    k < |events| && FailureAt(events, k).Some? && forall j :: k < j < |events| ==> FailureAt(events, j).None?
  }

  /** A session is taken for a success exactly when it closed after a message that completed it,
      and nothing failed, or what failed last did so with an empty text. */
  lemma CodexSucceedsExactly(events: seq<R.Event>, exit: Exit)
    ensures VerdictOf(CodexAttempt(events, exit)) == Succeeded <==>
      && exit == Closed && CodexCompleted(events)
      && forall k: nat :: LastFailure(events, k) ==> FailureAt(events, k) == Some("")
  {
    hide CodexCompleted, LastFailure, FailureAt;
    NoFailureExactly(events);
  }

  lemma {:induction false} NoFailureExactly(events: seq<R.Event>)
    ensures R.StateAfter(events).error == "" <==>
      forall k: nat :: LastFailure(events, k) ==> FailureAt(events, k) == Some("")
  {
    if events != [] {
      var earlier, n := events[..|events| - 1], |events| - 1;
      NoFailureExactly(earlier);
      R.RunOn(earlier, events[n]);
      assert events == earlier + [events[n]];
      FailureRecorded(R.StateAfter(earlier), events[n]);
      forall k | 0 <= k < n
        ensures FailureAt(events, k) == FailureAt(earlier, k)
      {
        assert events[..k] == earlier[..k];
      }
      if FailureAt(events, n).Some? {
        assert LastFailure(events, n);
      } else {
        assert forall k: nat :: LastFailure(events, k) <==> LastFailure(earlier, k);
      }
    }
  }

  /** A server that names neither the started turn nor the answered one does blank it:
      the prompt is then given to the one-shot command although work had started. */
  lemma BlankTurnReplays()
    ensures
      var handshake := [] + [R.Message(C.Response(C.Number(1), C.Success(None, None)))]
        + [R.Message(C.Response(C.Number(2), C.Success(Some("x"), None)))];
      var started := handshake + [R.Message(C.TurnStarted(None))];
      var answered := started + [R.Message(C.Response(C.Number(3), C.Success(None, None)))];
      && R.StateAfter(started).workStarted
      && VerdictOf(CodexAttempt(answered, Closed)) == Unavailable
  {
    var e1 := R.Message(C.Response(C.Number(1), C.Success(None, None)));
    var e2 := R.Message(C.Response(C.Number(2), C.Success(Some("x"), None)));
    var e3 := R.Message(C.TurnStarted(None));
    var e4 := R.Message(C.Response(C.Number(3), C.Success(None, None)));
    R.RunOn([], e1);
    var s1 := R.StateAfter([] + [e1]);
    assert s1.threadIds == {2} && s1.turnIds == {} && s1.controls == map[] && s1.nextProtocolId == 3;
    R.RunOn([] + [e1], e2);
    var s2 := R.StateAfter([] + [e1] + [e2]);
    assert s2.threadIds == {2} && s2.turnIds == {3} && s2.controls == map[] && s2.turnId == "";
    R.RunOn([] + [e1] + [e2], e3);
    var s3 := R.StateAfter([] + [e1] + [e2] + [e3]);
    assert s3 == s2.(workStarted := true);
    R.RunOn([] + [e1] + [e2] + [e3], e4);
    assert R.ForgetsTurn(s3, e4);
    R.WorkStartedExactly(s3, e4);
    var answered := [] + [e1] + [e2] + [e3] + [e4];
    assert answered[..|answered|] == answered;
    NotCompleted(e1, e2, e3, e4);
  }

  lemma NotCompleted(e1: R.Event, e2: R.Event, e3: R.Event, e4: R.Event)
    requires !Completes(R.StateAfter([]), e1) && !Completes(R.StateAfter([] + [e1]), e2)
    requires !Completes(R.StateAfter([] + [e1] + [e2]), e3) && !Completes(R.StateAfter([] + [e1] + [e2] + [e3]), e4)
    ensures !CodexCompleted([] + [e1] + [e2] + [e3] + [e4])
  {
    hide CodexCompleted, Completes, R.StateAfter;
    NothingCompleted();
    CompletedOn([], e1);
    CompletedOn([] + [e1], e2);
    CompletedOn([] + [e1] + [e2], e3);
    CompletedOn([] + [e1] + [e2] + [e3], e4);
  }

  lemma NothingCompleted()
    ensures !CodexCompleted([])
  {
  }

  lemma SpeechlessFailure(failed: R.Event)
    requires failed == R.Message(C.TurnCompleted(C.Failed("")))
    ensures Completes(R.StateAfter([]), failed) && FailureOf(R.StateAfter([]), failed) == Some("")
  {
  }

  lemma OnlyFailure(events: seq<R.Event>)
    requires |events| == 1 && FailureOf(R.StateAfter([]), events[0]) == Some("") && Completes(R.StateAfter([]), events[0])
    ensures FailureAt(events, 0) == Some("")
    ensures forall k: nat :: LastFailure(events, k) ==> FailureAt(events, k) == Some("")
    ensures CodexCompleted(events)
  {
    hide FailureOf, R.StateAfter, Completes;
    assert events[..0] == [];
    assert Completes(R.StateAfter(events[..0]), events[0]);
  }

  lemma FailingAlone(events: seq<R.Event>)
    requires |events| == 1 && FailureOf(R.StateAfter([]), events[0]) == Some("") && Completes(R.StateAfter([]), events[0])
    ensures FailureAt(events, 0) == Some("") && VerdictOf(CodexAttempt(events, Closed)) == Succeeded
  {
    hide CodexCompleted, Completes, FailureOf, FailureAt, LastFailure, R.StateAfter, LiveVerdict;
    OnlyFailure(events);
    CodexSucceedsExactly(events, Closed);
  }

  /** A turn that fails without a text. */
  lemma EmptyFailureSucceeds()
    ensures
      var events := [R.Message(C.TurnCompleted(C.Failed("")))];
      FailureAt(events, 0) == Some("") && VerdictOf(CodexAttempt(events, Closed)) == Succeeded
  {
    hide CodexCompleted, Completes, FailureOf, FailureAt, R.StateAfter, LiveVerdict, CodexHistory;
    SpeechlessFailure(R.Message(C.TurnCompleted(C.Failed(""))));
    FailingAlone([R.Message(C.TurnCompleted(C.Failed("")))]);
  }

  // ----- Claude histories -----

  /** A message of the stream; a result may report an error, with its text. */
  datatype ClaudeMessage = System | StreamEvent | Assistant | User | Outcome(error: Option<string>) | Auxiliary

  class ClaudeController {
    var workStarted: bool
    var error: string

    constructor ()
      ensures !workStarted && error == ""
    {
      workStarted, error := false, "";
    }

    /** `handle_message`; the result says whether the session is completed. */
    method HandleMessage(message: ClaudeMessage) returns (completed: bool)
      modifies this
      ensures workStarted == ClaudeStarted(old(workStarted), message)
      ensures error == ClaudeError(old(error), message)
      ensures completed <==> message.Outcome?
    {
      completed := false;
      match message
      case StreamEvent => workStarted := true;
      case Assistant => workStarted := true;
      case Outcome(reported) =>
        if reported.Some? {
          error := reported.value;
        }
        completed := true;
      case _ =>
    }
  }

  function ClaudeStarted(before: bool, message: ClaudeMessage): bool {
    before || message.StreamEvent? || message.Assistant?
  }

  function ClaudeError(before: string, message: ClaudeMessage): string {
    if message.Outcome? && message.error.Some? then message.error.value else before
  }

  function ClaudeHistory(messages: seq<ClaudeMessage>): (history: seq<bool>)
    ensures |history| == |messages| + 1
  {
    if messages == [] then [false]
    else
      var before := ClaudeHistory(messages[..|messages| - 1]);
      before + [ClaudeStarted(before[|before| - 1], messages[|messages| - 1])]
  }

  function ClaudeFailure(messages: seq<ClaudeMessage>): string {
    if messages == [] then ""
    else ClaudeError(ClaudeFailure(messages[..|messages| - 1]), messages[|messages| - 1])
  }

  function ClaudeAttempt(messages: seq<ClaudeMessage>, exit: Exit): Attempt {
    Live(ClaudeHistory(messages), ClaudeFailure(messages) != "", EndOf(exit, ClaudeCompleted(messages)))
  }

  predicate ClaudeCompleted(messages: seq<ClaudeMessage>) {
    exists m :: m in messages && m.Outcome?
  }

  predicate SeenWork(messages: seq<ClaudeMessage>) {
    exists m :: m in messages && (m.StreamEvent? || m.Assistant?)
  }

  /** Claude never takes `work_started` back, whatever messages arrive; it is set exactly
      once streamed or complete assistant output has been seen. */
  lemma {:induction false} ClaudeSticky(messages: seq<ClaudeMessage>)
    ensures Sticky(ClaudeHistory(messages))
    ensures ClaudeHistory(messages)[|messages|] <==> SeenWork(messages)
    ensures true in ClaudeHistory(messages) <==> SeenWork(messages)
  {
    if messages != [] {
      var earlier := messages[..|messages| - 1];
      ClaudeSticky(earlier);
      assert messages == earlier + [messages[|messages| - 1]];
    }
  }

  // ----- Fallback from attempt to attempt -----

  /** Codex: one live attempt, then the one-shot command. */
  method ExecuteCodex(useLive: bool, events: seq<R.Event>, exit: Exit) returns (log: seq<Attempt>)
    ensures Chain(log) && |log| <= 2
    ensures useLive <==> log[0] == CodexAttempt(events, exit)
    ensures |log| == 2 <==> useLive && VerdictOf(CodexAttempt(events, exit)) == Unavailable
    ensures |log| == 2 ==> (ObservedWork(log[0]) <==> exists k :: 0 <= k < |events| && ForgottenAt(events, k))
  {
    log := [];
    if useLive {
      var live := CodexAttempt(events, exit);
      log := log + [live];
      if VerdictOf(live) != Unavailable {
        return;
      }
      CodexReplaysExactly(events, exit);
    }
    log := log + [OneShot];
  }

  /** What one attempt saw of the provider, and how its session ended. */
  datatype Trace = Trace(messages: seq<ClaudeMessage>, exit: Exit)

  function Tried(trace: Trace): Attempt {
    ClaudeAttempt(trace.messages, trace.exit)
  }

  /** Claude: resume, live with optional flags, live without them, then the one-shot command.
      Only the last attempt ever saw work start, whatever the provider sent to each. */
  method ExecuteClaude(useLive: bool, resume: bool, resumed: Trace, flagged: Trace, plain: Trace)
    returns (log: seq<Attempt>)
    ensures Chain(log) && |log| <= 4
    ensures useLive <==> log[0].Live?
    ensures useLive ==> log <= (if resume then [Tried(resumed)] else []) + [Tried(flagged), Tried(plain), OneShot]
    ensures forall k :: 0 <= k < |log| - 1 ==> !ObservedWork(log[k])
  {
    hide VerdictOf, ObservedWork, ClaudeHistory, ClaudeFailure;
    log := [];
    if useLive {
      if resume {
        log := log + [Tried(resumed)];
        if VerdictOf(Tried(resumed)) != Unavailable {
          return;
        }
        GivenUpUnseen(resumed);
      }
      log := log + [Tried(flagged)];
      if VerdictOf(Tried(flagged)) != Unavailable {
        return;
      }
      GivenUpUnseen(flagged);
      log := log + [Tried(plain)];
      if VerdictOf(Tried(plain)) != Unavailable {
        return;
      }
      GivenUpUnseen(plain);
    }
    log := log + [OneShot];
  }

  lemma GivenUpUnseen(trace: Trace)
    requires VerdictOf(Tried(trace)) == Unavailable
    ensures !ObservedWork(Tried(trace)) && !SeenWork(trace.messages)
  {
    ClaudeSticky(trace.messages);
    UnavailableIsUntouched(Tried(trace));
  }

  /** A chain of Claude attempts: no prompt is given again once the provider began to act on
      it, whatever messages each attempt received and however it ended. */
  lemma ClaudeNeverReplays(log: seq<Attempt>, traces: seq<Trace>)
    requires Chain(log) && |log| - 1 <= |traces| <= |log|
    requires forall k :: 0 <= k < |traces| ==> log[k] == Tried(traces[k])
    ensures forall k :: 0 <= k < |log| - 1 ==> !SeenWork(traces[k].messages)
  {
    forall k | 0 <= k < |log| - 1
      ensures !SeenWork(traces[k].messages)
    {
      GivenUpUnseen(traces[k]);
    }
  }

  predicate LastReport(messages: seq<ClaudeMessage>, k: nat) {
    && k < |messages| && messages[k].Outcome? && messages[k].error.Some?
    && forall j :: k < j < |messages| && messages[j].Outcome? ==> messages[j].error.None?
  }

  /** The same of Claude: success exactly when the session closed after a result and no result
      reported an error, or the last one that did had no text. */
  lemma ClaudeSucceedsExactly(messages: seq<ClaudeMessage>, exit: Exit)
    ensures VerdictOf(ClaudeAttempt(messages, exit)) == Succeeded <==>
      && exit == Closed && ClaudeCompleted(messages)
      && forall k: nat :: LastReport(messages, k) ==> messages[k].error == Some("")
  {
    hide ClaudeCompleted, LastReport;
    NoReportExactly(messages);
  }

  /** It is given up for the next attempt exactly when no assistant output was seen and the
      session broke over a missing protocol, or closed without a result. */
  lemma ClaudeFallsBackExactly(messages: seq<ClaudeMessage>, exit: Exit)
    ensures VerdictOf(ClaudeAttempt(messages, exit)) == Unavailable <==>
      && (forall m :: m in messages ==> !m.StreamEvent? && !m.Assistant?)
      && (exit == Failing(true) || (exit == Closed && forall m :: m in messages ==> !m.Outcome?))
  {
    ClaudeSticky(messages);
  }

  lemma {:induction false} NoReportExactly(messages: seq<ClaudeMessage>)
    ensures ClaudeFailure(messages) == "" <==>
      forall k: nat :: LastReport(messages, k) ==> messages[k].error == Some("")
  {
    if messages != [] {
      var n := |messages| - 1;
      var earlier := messages[..n];
      NoReportExactly(earlier);
      if messages[n].Outcome? && messages[n].error.Some? {
        assert LastReport(messages, n);
      } else {
        assert forall k: nat :: LastReport(messages, k) <==> LastReport(earlier, k);
      }
    }
  }
}
