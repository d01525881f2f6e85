/** What the handshake of a Codex session sends, exactly, read off the log of a run against a
    server that answers each request once (src/execraft/agents/codex_live.py). */
module CodexHandshake {
  import opened Json
  import opened CodexSession
  import opened CodexRuns
  import Text

  // ----- The error texts that are worth a retry -----

  /** `c` is the lower-case letter `small`, in either case, or the same character. */
  predicate SameLetter(c: char, small: char) {
    c == small || ('A' <= c <= 'Z' && small as int == c as int + 32)
  }

  predicate Occurs(text: string, word: string, i: nat) {
    i + |word| <= |text| && forall k :: 0 <= k < |word| ==> SameLetter(text[i + k], word[k])
  }

  ghost predicate Mentions(text: string, word: string) {
    exists i: nat :: Occurs(text, word, i)
  }

  ghost predicate SaysUnknown(detail: string) {
    Mentions(detail, "unknown variant") || Mentions(detail, "unknown enum")
  }

  predicate SmallWord(word: string) {
    forall c :: c in word ==> !('A' <= c <= 'Z')
  }

  lemma MarkerMentioned(text: string, word: string)
    requires SmallWord(word)
    ensures ContainsFolded(text, word) <==> Mentions(text, word)
  {
    forall i: nat
      ensures MarkerAt(text, word, i) <==> Occurs(text, word, i)
    {
      forall k | 0 <= k < |word| && i + |word| <= |text|
        ensures Text.Lower(text[i + k]) == word[k] <==> SameLetter(text[i + k], word[k])
      {
        assert word[k] in word;
      }
    }
  }

  lemma MarkersAreSmall()
    ensures SmallWord("unknown variant") && SmallWord("unknown enum")
  {
  }

  lemma VariantExactly(detail: string)
    ensures VariantError(detail) <==> SaysUnknown(detail)
  {
    hide MarkerAt, ContainsFolded, Mentions, SmallWord;
    MarkersAreSmall();
    MarkerMentioned(detail, "unknown variant");
    MarkerMentioned(detail, "unknown enum");
  }

  // ----- Which answers are retried -----

  function Threads(events: seq<Event>): seq<(int, Style)> {
    Collect(Sent(events), ThreadStarts)
  }

  function Turns(events: seq<Event>): seq<(int, string, Style)> {
    Collect(Sent(events), TurnStarts)
  }

  /** A failure answer to request `id` that names an unknown value. */
  ghost predicate Refuses(event: Event, id: int) {
    match event
    case Message(Response(Number(n), Failure(detail))) => n == id && SaysUnknown(detail)
    case _ => false
  }

  /** The first thread/start is refused. */
  ghost predicate RetriesThread(events: seq<Event>, k: nat) {
    k < |events| && Threads(events[..k]) != [] && Refuses(events[k], Threads(events[..k])[0].0)
  }

  /** The server has reported that the turn started. */
  ghost predicate TurnReported(events: seq<Event>) {
    exists event :: event in events && event.Message? && event.message.TurnStarted?
  }

  /** The first turn/start is refused, before the turn was reported to have started. */
  ghost predicate RetriesTurn(events: seq<Event>, k: nat) {
    && k < |events| && Turns(events[..k]) != [] && !TurnReported(events[..k])
    && Refuses(events[k], Turns(events[..k])[0].0)
  }

  /** A success answer to initialize. */
  predicate Initializes(events: seq<Event>, k: nat) {
    k < |events| && InitializesBy(events[k])
  }

  /** A success answer to a thread/start that names the thread. */
  predicate NamesThread(events: seq<Event>, k: nat) {
    k < |events| && NamesThreadOf(events[k], Threads(events[..k]))
  }

  // ----- What one answer brings about -----

  lemma FailureBrings(
    s: State, n: int, detail: string,
    threads: seq<(int, Style)>, turns: seq<(int, string, Style)>, answered: set<int>)
    requires Handshake(s, threads, turns, answered) && n !in answered
    ensures var (after, update) := OnFailure(s, Number(n), detail);
      if threads != [] && n == threads[0].0 && SaysUnknown(detail) then
        |threads| == 1 && update == Update([ThreadStart(n + 1, Camel)], false) && threads[0].1 == Kebab && after.error == s.error
      else if turns != [] && n == turns[0].0 && SaysUnknown(detail) && !s.workStarted then
        |turns| == 1 && update == Update([TurnStart(n + 1, turns[0].1, Kebab)], false) && turns[0].2 == Camel && after.error == s.error
      else if n in s.controls then update == QUIET && after.error == s.error
      else update == Update([], true) && after.error == detail
    ensures OnFailure(s, Number(n), detail).0.workStarted == s.workStarted
  {
    hide VariantError, SaysUnknown;
    VariantExactly(detail);
  }

  /** The ids the session remembers are those it has sent. */
  lemma RequestIds(
    s: State, n: int, threads: seq<(int, Style)>, turns: seq<(int, string, Style)>, answered: set<int>)
    requires Handshake(s, threads, turns, answered)
    ensures n in s.threadIds <==> exists i :: 0 <= i < |threads| && threads[i].0 == n
    ensures n in s.turnIds <==> exists i :: 0 <= i < |turns| && turns[i].0 == n
  {
    if n in s.threadIds {
      assert threads[n - 2].0 == n;
    }
    if n in s.turnIds {
      assert turns[n - 2 - |threads|].0 == n;
    }
  }

  lemma SuccessBrings(
    s: State, n: int, thread: Option<string>, turn: Option<string>,
    threads: seq<(int, Style)>, turns: seq<(int, string, Style)>, answered: set<int>)
    requires Handshake(s, threads, turns, answered) && n !in answered
    ensures var (after, update) := OnSuccess(s, Number(n), Success(thread, turn));
      if n == 1 then threads == [] && update == Update([Initialized, ThreadStart(2, Kebab)], false)
      else if exists i :: 0 <= i < |threads| && threads[i].0 == n then
        if thread.None? || thread.value == "" then update == Update([], true) && after.error == NO_THREAD
        else turns == [] && update == Update([TurnStart(2 + |threads|, thread.value, Camel)], false)
      else
        && Collect(update.outbound, ThreadStarts) == [] && Collect(update.outbound, TurnStarts) == []
        && !update.completed && after.error == s.error
    ensures !(exists i :: 0 <= i < |turns| && turns[i].0 == n) ==>
      OnSuccess(s, Number(n), Success(thread, turn)).0.workStarted == s.workStarted
  {
    hide Collect, SteerAll, Flush;
    CollectNone(ThreadStarts);
    CollectNone(TurnStarts);
    RequestIds(s, n, threads, turns, answered);
    var popped := ForgetControl(s, Number(n));
    if n != 1 && n !in s.controls && n !in s.threadIds && n in s.turnIds {
      var id := TurnIdAfter(popped, turn);
      FlushConserves(popped.(turnId := id, workStarted := id != ""));
    }
  }

  // ----- Work starts when the server says so -----

  lemma StartedOn(s: State, event: Event, threads: seq<(int, Style)>, turns: seq<(int, string, Style)>, answered: set<int>)
    requires Handshake(s, threads, turns, answered)
    requires AnswerTo(event).Some? ==> AnswerTo(event).value !in answered
    requires forall start :: start in turns ==> AnswerTo(event) != Some(start.0)
    ensures Step(s, event).0.workStarted <==> s.workStarted || (event.Message? && event.message.TurnStarted?)
  {
    hide Handshake, Collect, SteerAll, PollAll, OnSuccess, OnFailure;
    match event
    case Poll(batch) => PollAllConserves(s, batch);
    case Message(TurnStarted(turn)) => FlushConserves(s.(turnId := TurnIdAfter(s, turn), workStarted := true));
    case Message(Response(Number(n), Failure(detail))) => FailureBrings(s, n, detail, threads, turns, answered);
    case Message(Response(Number(n), Success(thread, turn))) =>
      assert forall i :: 0 <= i < |turns| ==> turns[i] in turns;
      SuccessBrings(s, n, thread, turn, threads, turns, answered);
    case Message(Response(Other(tag), reply)) => OtherAnswer(s, tag, reply);
    case Message(_) =>
  }

  lemma OtherAnswer(s: State, tag: string, reply: Reply)
    ensures var (after, update) := OnMessage(s, Response(Other(tag), reply));
      && after.workStarted == s.workStarted
      && update == (if reply.Failure? then Update([], true) else QUIET)
      && after.error == (if reply.Failure? then reply.detail else s.error)
  {
  }

  /** As long as no turn/start has been answered, work has started exactly if the server has said so. */
  lemma {:induction false} StartedExactly(events: seq<Event>)
    requires AnswersOnce(events)
    requires forall start :: start in Turns(events) ==> start.0 !in Answered(events)
    ensures StateAfter(events).workStarted <==> TurnReported(events)
  {
    if events != [] {
      var earlier, event := Text.Init(events), Text.Last(events);
      hide Step, Handshake, Collect, AnswersOnce;
      AnswersOnceInit(events);
      CollectAppend(Sent(earlier), Step(StateAfter(earlier), event).1, TurnStarts);
      RunKeepsHandshake(earlier);
      assert forall start :: start in Turns(earlier) ==> start in Turns(events);
      StartedExactly(earlier);
      StartedOn(StateAfter(earlier), event, Threads(earlier), Turns(earlier), Answered(earlier));
      assert events == earlier + [event];
    }
  }

  // ----- The whole handshake -----

  /** What event `k` of a run makes the client send, and whether it ends the session. */
  function UpdateAt(events: seq<Event>, k: nat): Update
    requires k < |events| && events[k].Message?
  {
    OnMessage(StateAfter(events[..k]), events[k].message).1
  }

  /** The turn/start of a retry is on the same thread, in the other spelling and under the next
      id, the session goes on, and no error is recorded. */
  lemma TurnRetried(events: seq<Event>, k: nat)
    requires AnswersOnce(events) && RetriesTurn(events, k)
    ensures var start, s := Turns(events[..k])[0], StateAfter(events[..k]);
      && |Turns(events[..k])| == 1
      && UpdateAt(events, k) == Update([TurnStart(start.0 + 1, start.1, if start.2 == Kebab then Camel else Kebab)], false)
      && start.1 == s.threadId && Step(s, events[k]).0.error == s.error
  {
    hide Collect, OnFailure, AnswersOnce, Run;
    var earlier, turns := events[..k], Turns(events[..k]);
    AnswersOnceTo(events, k);
    RunKeepsHandshake(earlier);
    var detail := events[k].message.reply.detail;
    FirstTurnOpen(earlier);
    FailureBrings(StateAfter(earlier), turns[0].0, detail, Threads(earlier), turns, Answered(earlier));
    StartedExactly(earlier);
  }

  /** While the first turn/start is not answered there is no second. */
  lemma FirstTurnOpen(events: seq<Event>)
    requires AnswersOnce(events) && Turns(events) != [] && Turns(events)[0].0 !in Answered(events)
    ensures |Turns(events)| == 1
  {
    RunKeepsHandshake(events);
  }

  lemma AnswersOnceTo(events: seq<Event>, k: nat)
    requires AnswersOnce(events) && k <= |events|
    ensures AnswersOnce(events[..k])
    ensures k < |events| && AnswerTo(events[k]).Some? ==> AnswerTo(events[k]).value !in Answered(events[..k])
  {
  }

  /** The same of thread/start. */
  lemma ThreadRetried(events: seq<Event>, k: nat)
    requires AnswersOnce(events) && RetriesThread(events, k)
    ensures var start, s := Threads(events[..k])[0], StateAfter(events[..k]);
      && |Threads(events[..k])| == 1
      && UpdateAt(events, k) == Update([ThreadStart(start.0 + 1, if start.1 == Kebab then Camel else Kebab)], false)
      && Step(s, events[k]).0.error == s.error
  {
    hide Collect, OnFailure, AnswersOnce, Run;
    var earlier, threads := events[..k], Threads(events[..k]);
    AnswersOnceTo(events, k);
    RunKeepsHandshake(earlier);
    var detail := events[k].message.reply.detail;
    FailureBrings(StateAfter(earlier), threads[0].0, detail, threads, Turns(earlier), Answered(earlier));
  }

  /** Any other failure answer, unless it is to a control request, ends the session with its text. */
  lemma OtherFailuresEnd(events: seq<Event>, k: nat, id: Id, detail: string)
    requires AnswersOnce(events) && k < |events| && events[k] == Message(Response(id, Failure(detail)))
    requires !RetriesThread(events, k) && !RetriesTurn(events, k)
    requires id.Number? ==> id.n < 100
    ensures UpdateAt(events, k) == Update([], true) && Step(StateAfter(events[..k]), events[k]).0.error == detail
  {
    hide Collect, OnFailure, AnswersOnce, Run;
    var earlier := events[..k];
    AnswersOnceTo(events, k);
    RunKeepsHandshake(earlier);
    var s, threads, turns := StateAfter(earlier), Threads(earlier), Turns(earlier);
    match id
    case Other(tag) => OtherAnswer(s, tag, Failure(detail));
    case Number(n) =>
      FailureBrings(s, n, detail, threads, turns, Answered(earlier));
      if turns != [] && n == turns[0].0 && SaysUnknown(detail) {
        FirstTurnOpen(earlier);
        StartedExactly(earlier);
      }
  }

  predicate InitializesBy(event: Event) {
    match event case Message(Response(Number(n), Success(_, _))) => n == 1 case _ => false
  }

  predicate NamesThreadOf(event: Event, threads: seq<(int, Style)>) {
    match event
    case Message(Response(Number(n), Success(Some(thread), _))) =>
      thread != "" && exists i :: 0 <= i < |threads| && threads[i].0 == n
    case _ => false
  }

  ghost predicate Adds(
    event: Event, more: seq<Outgoing>, started: bool, threads: seq<(int, Style)>, turns: seq<(int, string, Style)>)
  {
    var refusesThread := threads != [] && Refuses(event, threads[0].0);
    var refusesTurn := turns != [] && !started && Refuses(event, turns[0].0);
    && Collect(more, ThreadStarts)
         == (if InitializesBy(event) then [(2, Kebab)] else if refusesThread then [(3, Camel)] else [])
    && (InitializesBy(event) ==> threads == []) && (refusesThread ==> |threads| == 1)
    && |Collect(more, TurnStarts)| == (if NamesThreadOf(event, threads) || refusesTurn then 1 else 0)
    && (NamesThreadOf(event, threads) ==> turns == []) && (refusesTurn ==> |turns| == 1)
  }

  lemma FailureAdds(
    s: State, n: int, detail: string, threads: seq<(int, Style)>, turns: seq<(int, string, Style)>, answered: set<int>)
    requires Handshake(s, threads, turns, answered) && n !in answered
    ensures Adds(Message(Response(Number(n), Failure(detail))), OnFailure(s, Number(n), detail).1.outbound, s.workStarted, threads, turns)
  {
    FailureBrings(s, n, detail, threads, turns, answered);
    ThreadsBeforeTurns(s, threads, turns, answered);
    hide Collect, OnFailure, Handshake, SaysUnknown;
    CollectNone(ThreadStarts);
    CollectNone(TurnStarts);
    if OnFailure(s, Number(n), detail).1.outbound != [] {
      SentOne(OnFailure(s, Number(n), detail).1.outbound[0]);
    }
  }

  lemma ThreadsBeforeTurns(s: State, threads: seq<(int, Style)>, turns: seq<(int, string, Style)>, answered: set<int>)
    requires Handshake(s, threads, turns, answered)
    ensures threads != [] && turns != [] ==> threads[0].0 != turns[0].0
    ensures threads != [] ==> threads[0].0 == 2
  {
  }

  lemma SuccessAdds(
    s: State, n: int, thread: Option<string>, turn: Option<string>,
    threads: seq<(int, Style)>, turns: seq<(int, string, Style)>, answered: set<int>)
    requires Handshake(s, threads, turns, answered) && n !in answered
    ensures Adds(Message(Response(Number(n), Success(thread, turn))), OnSuccess(s, Number(n), Success(thread, turn)).1.outbound,
                 s.workStarted, threads, turns)
  {
    var event, update := Message(Response(Number(n), Success(thread, turn))), OnSuccess(s, Number(n), Success(thread, turn)).1;
    SuccessBrings(s, n, thread, turn, threads, turns, answered);
    NotInitialize(s, threads, turns, answered);
    hide Adds, Collect, OnSuccess, Handshake;
    CollectNone(ThreadStarts);
    CollectNone(TurnStarts);
    if n == 1 {
      ThreadAdded(event, s.workStarted, turns);
    } else if NamesThreadOf(event, threads) {
      TurnAdded(event, TurnStart(2 + |threads|, thread.value, Camel), s.workStarted, threads);
    } else {
      NothingAdded(event, update.outbound, s.workStarted, threads, turns);
    }
  }

  lemma ThreadAdded(event: Event, started: bool, turns: seq<(int, string, Style)>)
    requires InitializesBy(event)
    ensures Adds(event, [Initialized, ThreadStart(2, Kebab)], started, [], turns)
  {
    SuccessRefusesNothing(event);
    hide Collect, Refuses;
    SentTwo(Initialized, ThreadStart(2, Kebab));
    assert Collect([Initialized, ThreadStart(2, Kebab)], ThreadStarts) == [] + [(2, Kebab)];
  }

  lemma TurnAdded(event: Event, start: Outgoing, started: bool, threads: seq<(int, Style)>)
    requires start.TurnStart? && NamesThreadOf(event, threads) && !InitializesBy(event)
    ensures Adds(event, [start], started, threads, [])
  {
    SuccessRefusesNothing(event);
    hide Collect, Refuses;
    SentOne(start);
  }

  lemma NothingAdded(
    event: Event, more: seq<Outgoing>, started: bool, threads: seq<(int, Style)>, turns: seq<(int, string, Style)>)
    requires event.Message? && event.message.Response? && event.message.reply.Success?
    requires !InitializesBy(event) && !NamesThreadOf(event, threads)
    requires Collect(more, ThreadStarts) == [] && Collect(more, TurnStarts) == []
    ensures Adds(event, more, started, threads, turns)
  {
    SuccessRefusesNothing(event);
    hide Collect, Refuses;
  }

  lemma SuccessRefusesNothing(event: Event)
    requires event.Message? && event.message.Response? && event.message.reply.Success?
    ensures forall id :: !Refuses(event, id)
  {
  }

  lemma NotInitialize(s: State, threads: seq<(int, Style)>, turns: seq<(int, string, Style)>, answered: set<int>)
    requires Handshake(s, threads, turns, answered)
    ensures forall i :: 0 <= i < |threads| ==> threads[i].0 != 1
  {
  }

  lemma StepAdds(s: State, event: Event, threads: seq<(int, Style)>, turns: seq<(int, string, Style)>, answered: set<int>)
    requires Handshake(s, threads, turns, answered)
    requires AnswerTo(event).Some? ==> AnswerTo(event).value !in answered
    ensures Adds(event, Step(s, event).1, s.workStarted, threads, turns)
  {
    hide Handshake, Collect, SteerAll, PollAll, OnSuccess, OnFailure, SaysUnknown;
    CollectNone(ThreadStarts);
    CollectNone(TurnStarts);
    match event
    case Message(Response(Number(n), Failure(detail))) => FailureAdds(s, n, detail, threads, turns, answered);
    case Message(Response(Number(n), Success(thread, turn))) => SuccessAdds(s, n, thread, turn, threads, turns, answered);
    case Poll(batch) => PollAllConserves(s, batch);
    case Message(TurnStarted(turn)) => FlushConserves(s.(turnId := TurnIdAfter(s, turn), workStarted := true));
    case Message(ServerRequest(id, _)) => SentOne(CodexSession.Answer(id));
    case Message(Response(Other(tag), reply)) => OtherAnswer(s, tag, reply);
    case Message(_) =>
  }

  /** What the last event of a run adds to the starts. */
  lemma StartsOn(events: seq<Event>)
    requires events != [] && AnswersOnce(events)
    ensures var earlier, n := Text.Init(events), |events| - 1;
      && |Threads(events)| == |Threads(earlier)| + (if Initializes(events, n) || RetriesThread(events, n) then 1 else 0)
      && (Initializes(events, n) ==> Threads(earlier) == []) && (RetriesThread(events, n) ==> |Threads(earlier)| == 1)
      && |Turns(events)| == |Turns(earlier)| + (if NamesThread(events, n) || RetriesTurn(events, n) then 1 else 0)
      && (NamesThread(events, n) ==> Turns(earlier) == []) && (RetriesTurn(events, n) ==> |Turns(earlier)| == 1)
  {
    var earlier, event, n := Text.Init(events), Text.Last(events), |events| - 1;
    hide Collect, Step, AnswersOnce, Refuses, InitializesBy, NamesThreadOf, Run, TurnReported;
    assert earlier == events[..n];
    LastAdds(events);
    if Turns(earlier) != [] && Refuses(event, Turns(earlier)[0].0) {
      AnswersOnceInit(events);
      FirstOpen(earlier, event);
    }
  }

  lemma LastAdds(events: seq<Event>)
    requires events != [] && AnswersOnce(events)
    ensures var earlier, event := Text.Init(events), Text.Last(events);
      var s := StateAfter(earlier);
      var more := Step(s, event).1;
      && Threads(events) == Threads(earlier) + Collect(more, ThreadStarts)
      && Turns(events) == Turns(earlier) + Collect(more, TurnStarts)
      && Adds(event, more, s.workStarted, Threads(earlier), Turns(earlier))
  {
    var earlier, event := Text.Init(events), Text.Last(events);
    hide Collect, Step, Handshake, AnswersOnce, Adds;
    var s := StateAfter(earlier);
    CollectAppend(Sent(earlier), Step(s, event).1, ThreadStarts);
    CollectAppend(Sent(earlier), Step(s, event).1, TurnStarts);
    AnswersOnceInit(events);
    RunKeepsHandshake(earlier);
    StepAdds(s, event, Threads(earlier), Turns(earlier), Answered(earlier));
  }

  lemma FirstOpen(earlier: seq<Event>, event: Event)
    requires AnswersOnce(earlier) && (AnswerTo(event).Some? ==> AnswerTo(event).value !in Answered(earlier))
    requires Turns(earlier) != [] && Refuses(event, Turns(earlier)[0].0)
    ensures StateAfter(earlier).workStarted <==> TurnReported(earlier)
  {
    hide Collect, Run, SaysUnknown, AnswersOnce;
    FirstTurnOpen(earlier);
    StartedExactly(earlier);
  }

  lemma SentOne(o: Outgoing)
    ensures Collect([o], ThreadStarts) == if o.ThreadStart? then [(o.id, o.style)] else []
    ensures Collect([o], TurnStarts) == if o.TurnStart? then [(o.id, o.thread, o.style)] else []
  {
    CollectOne(o, ThreadStarts);
    CollectOne(o, TurnStarts);
  }

  lemma SentTwo(o: Outgoing, p: Outgoing)
    ensures Collect([o, p], ThreadStarts) == Collect([o], ThreadStarts) + Collect([p], ThreadStarts)
    ensures Collect([o, p], TurnStarts) == Collect([o], TurnStarts) + Collect([p], TurnStarts)
    ensures Collect([p], ThreadStarts) == if p.ThreadStart? then [(p.id, p.style)] else []
    ensures Collect([o], ThreadStarts) == if o.ThreadStart? then [(o.id, o.style)] else []
    ensures Collect([p], TurnStarts) == if p.TurnStart? then [(p.id, p.thread, p.style)] else []
    ensures Collect([o], TurnStarts) == if o.TurnStart? then [(o.id, o.thread, o.style)] else []
  {
    assert [o, p] == [o] + [p];
    CollectAppend([o], [p], ThreadStarts);
    CollectAppend([o], [p], TurnStarts);
    SentOne(o);
    SentOne(p);
  }

  lemma SameBefore(events: seq<Event>, k: nat)
    requires events != [] && k < |events| - 1
    ensures var earlier := Text.Init(events);
      && (Initializes(events, k) <==> Initializes(earlier, k)) && (RetriesThread(events, k) <==> RetriesThread(earlier, k))
      && (NamesThread(events, k) <==> NamesThread(earlier, k)) && (RetriesTurn(events, k) <==> RetriesTurn(earlier, k))
  {
    assert Text.Init(events)[..k] == events[..k];
  }

  ghost predicate ThreadAsked(events: seq<Event>) {
    exists k: nat :: Initializes(events, k)
  }

  ghost predicate ThreadNamed(events: seq<Event>) {
    exists k: nat :: NamesThread(events, k)
  }

  ghost predicate ThreadRefused(events: seq<Event>) {
    exists k: nat :: RetriesThread(events, k)
  }

  ghost predicate TurnRefused(events: seq<Event>) {
    exists k: nat :: RetriesTurn(events, k)
  }

  lemma EverOn(events: seq<Event>)
    requires events != []
    ensures var earlier, n := Text.Init(events), |events| - 1;
      && (ThreadAsked(events) <==> ThreadAsked(earlier) || Initializes(events, n))
      && (ThreadNamed(events) <==> ThreadNamed(earlier) || NamesThread(events, n))
      && (ThreadRefused(events) <==> ThreadRefused(earlier) || RetriesThread(events, n))
      && (TurnRefused(events) <==> TurnRefused(earlier) || RetriesTurn(events, n))
  {
    hide Initializes, RetriesThread, NamesThread, RetriesTurn;
    var earlier, n := Text.Init(events), |events| - 1;
    OnlyWithin(events);
    OnlyWithin(earlier);
    forall k: nat | k < n {
      SameBefore(events, k);
    }
    OneMore((k: nat) => Initializes(events, k), (k: nat) => Initializes(earlier, k), n);
    OneMore((k: nat) => NamesThread(events, k), (k: nat) => NamesThread(earlier, k), n);
    OneMore((k: nat) => RetriesThread(events, k), (k: nat) => RetriesThread(earlier, k), n);
    OneMore((k: nat) => RetriesTurn(events, k), (k: nat) => RetriesTurn(earlier, k), n);
  }

  lemma OneMore(p: nat -> bool, q: nat -> bool, n: nat)
    requires forall k: nat :: p(k) ==> k <= n
    requires forall k: nat :: q(k) ==> k < n
    requires forall k: nat :: k < n ==> p(k) == q(k)
    ensures (exists k: nat :: p(k)) <==> (exists k: nat :: q(k)) || p(n)
  {
  }

  lemma OnlyWithin(events: seq<Event>)
    ensures forall k: nat :: Initializes(events, k) ==> k < |events|
    ensures forall k: nat :: RetriesThread(events, k) ==> k < |events|
    ensures forall k: nat :: NamesThread(events, k) ==> k < |events|
    ensures forall k: nat :: RetriesTurn(events, k) ==> k < |events|
  {
  }

  /** Exactly when a thread and a turn are started, and each a second time. */
  lemma {:induction false} HandshakeExactly(events: seq<Event>)
    requires AnswersOnce(events)
    ensures |Threads(events)| >= 1 <==> ThreadAsked(events)
    ensures |Threads(events)| == 2 <==> ThreadRefused(events)
    ensures |Turns(events)| >= 1 <==> ThreadNamed(events)
    ensures |Turns(events)| == 2 <==> TurnRefused(events)
  {
    HandshakeIsBounded(events);
    if events == [] {
      NothingSent();
    } else {
      hide Initializes, RetriesThread, NamesThread, RetriesTurn, Threads, Turns, ThreadAsked, ThreadNamed, ThreadRefused, TurnRefused,
           AnswersOnce;
      AnswersOnceInit(events);
      HandshakeIsBounded(Text.Init(events));
      HandshakeExactly(Text.Init(events));
      StartsOn(events);
      EverOn(events);
    }
  }

  lemma NothingSent()
    ensures Threads([]) == [] && Turns([]) == []
  {
  }
}
