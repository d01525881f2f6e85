/** The Codex app-server client (`CodexAppServerController` in
    src/execraft/agents/codex_live.py): what one message or one poll does to the
    session, as functions on a state value, and the controller class that does it. */
module CodexSession {
  import opened Json
  import Text

  datatype Style = Kebab | Camel

  /** JSON-RPC request ids: the client only ever uses integers. */
  datatype Id = Number(n: int) | Other(tag: string)

  datatype Reply =
    | Failure(detail: string)
      /** The ids inside `result.thread` and `result.turn`, where present. */
    | Success(thread: Option<string>, turn: Option<string>)

  datatype TurnStatus = Completed | Failed(message: string) | Interrupted

  datatype Incoming =
    | ServerRequest(id: Id, method_: string)
    | Response(id: Id, reply: Reply)
    | TurnStarted(turn: Option<string>)
    | TurnCompleted(status: TurnStatus)
    | Progress

  datatype Control = Steer(data: string) | Interrupt | OtherControl

  datatype Outgoing =
    | Initialized
    | ThreadStart(id: int, style: Style)
    | TurnStart(id: int, thread: string, style: Style)
    | SteerTurn(id: int, thread: string, turn: string, text: string)
    | InterruptTurn(id: int, thread: string, turn: string)
    | Answer(to: Id)

  datatype ControlKind = Steering | Interruption

  datatype Update = Update(outbound: seq<Outgoing>, completed: bool)

  datatype State = State(
    threadId: string,
    turnId: string,
    error: string,
    workStarted: bool,
    pending: seq<string>,
    nextProtocolId: int,
    nextId: int,
    controls: map<int, ControlKind>,
    threadIds: set<int>,
    turnIds: set<int>,
    threadStyle: Style,
    turnStyle: Style,
    threadTried: set<Style>,
    turnTried: set<Style>)

  const START := State("", "", "", false, [], 2, 100, map[], {}, {}, Kebab, Camel, {Kebab}, {Camel})

  const QUIET := Update([], false)

  // ----- Requests -----

  function Active(s: State): bool {
    s.threadId != "" && s.turnId != ""
  }

  function SteerOne(s: State, text: string): (State, Outgoing) {
    (s.(nextId := s.nextId + 1, controls := s.controls[s.nextId := Steering]),
     SteerTurn(s.nextId, s.threadId, s.turnId, text))
  }

  function SteerAll(s: State, texts: seq<string>): (State, seq<Outgoing>) {
    if texts == [] then (s, [])
    else
      var (before, sent) := SteerAll(s, Text.Init(texts));
      var (after, request) := SteerOne(before, Text.Last(texts));
      (after, sent + [request])
  }

  function Flush(s: State): (State, seq<Outgoing>) {
    if Active(s) then SteerAll(s.(pending := []), s.pending) else (s, [])
  }

  function StartThread(s: State): (State, Outgoing) {
    (s.(nextProtocolId := s.nextProtocolId + 1, threadIds := s.threadIds + {s.nextProtocolId}),
     ThreadStart(s.nextProtocolId, s.threadStyle))
  }

  function StartTurn(s: State): (State, Outgoing) {
    (s.(nextProtocolId := s.nextProtocolId + 1, turnIds := s.turnIds + {s.nextProtocolId}),
     TurnStart(s.nextProtocolId, s.threadId, s.turnStyle))
  }

  // ----- Messages -----

  predicate MarkerAt(text: string, marker: string, i: nat) {
    i + |marker| <= |text| && forall k :: 0 <= k < |marker| ==> Text.Lower(text[i + k]) == marker[k]
  }

  predicate ContainsFolded(text: string, marker: string) {
    exists i: nat :: i <= |text| && MarkerAt(text, marker, i)
  }

  predicate VariantError(detail: string) {
    ContainsFolded(detail, "unknown variant") || ContainsFolded(detail, "unknown enum")
  }

  function Alternate(style: Style): Style {
    if style == Kebab then Camel else Kebab
  }

  /** One retry per stage, in the sandbox spelling not tried yet. */
  function SandboxRetry(s: State, id: Id, detail: string): Option<(State, Update)> {
    if !id.Number? || !VariantError(detail) then None
    else if id.n in s.threadIds && s.threadId == "" then
      var style := Alternate(s.threadStyle);
      if style in s.threadTried then None
      else
        var (after, request) := StartThread(s.(threadStyle := style, threadTried := s.threadTried + {style}));
        Some((after, Update([request], false)))
    else if id.n in s.turnIds && !s.workStarted then
      var style := Alternate(s.turnStyle);
      if style in s.turnTried then None
      else
        var (after, request) := StartTurn(s.(turnStyle := style, turnTried := s.turnTried + {style}));
        Some((after, Update([request], false)))
    else None
  }

  predicate AnswersControl(s: State, id: Id) {
    id.Number? && id.n in s.controls
  }

  function ForgetControl(s: State, id: Id): State {
    if AnswersControl(s, id) then s.(controls := s.controls - {id.n}) else s
  }

  function OnFailure(s: State, id: Id, detail: string): (State, Update) {
    var popped := ForgetControl(s, id);
    match SandboxRetry(popped, id, detail)
    case Some(retry) => retry
    case None =>
      if AnswersControl(s, id) then (popped, QUIET)
      else (popped.(error := detail), Update([], true))
  }

  const NO_THREAD := "Codex app-server did not return a thread id"

  function OnThread(s: State, thread: Option<string>): (State, Update) {
    if thread.None? || thread.value == "" then
      (s.(threadId := "", error := NO_THREAD), Update([], true))
    else
      var (after, request) := StartTurn(s.(threadId := thread.value));
      (after, Update([request], false))
  }

  /** `str(turn.get("id", self.turn_id))` */
  function TurnIdAfter(s: State, turn: Option<string>): string {
    if turn.Some? then turn.value else s.turnId
  }

  function OnTurn(s: State, turn: Option<string>): (State, Update) {
    var id := TurnIdAfter(s, turn);
    var (after, sent) := Flush(s.(turnId := id, workStarted := id != ""));
    (after, Update(sent, false))
  }

  function OnSuccess(s: State, id: Id, reply: Reply): (State, Update)
    requires reply.Success?
  {
    var popped := ForgetControl(s, id);
    if AnswersControl(s, id) || !id.Number? then (popped, QUIET)
    else if id.n == 1 then
      var (after, request) := StartThread(popped);
      (after, Update([Initialized, request], false))
    else if id.n in popped.threadIds then OnThread(popped, reply.thread)
    else if id.n in popped.turnIds then OnTurn(popped, reply.turn)
    else (popped, QUIET)
  }

  function OnMessage(s: State, message: Incoming): (State, Update) {
    match message
    case ServerRequest(id, _) => (s, Update([Answer(id)], false))
    case Response(id, Failure(detail)) => OnFailure(s, id, detail)
    case Response(id, Success(_, _)) => OnSuccess(s, id, message.reply)
    case TurnStarted(turn) =>
      var (after, sent) := Flush(s.(turnId := TurnIdAfter(s, turn), workStarted := true));
      (after, Update(sent, false))
    case TurnCompleted(status) =>
      (match status
       case Completed => s
       case Failed(text) => s.(error := text)
       case Interrupted => s.(error := INTERRUPTED),
       Update([], true))
    case Progress => (s, QUIET)
  }

  const INTERRUPTED := "Codex turn was interrupted by the operator"

  // ----- Operator controls -----

  function PollOne(s: State, control: Control): (State, seq<Outgoing>) {
    match control
    case Steer(data) =>
      var text := Text.Strip(data);
      if text == "" then (s, [])
      else if Active(s) then
        var (after, request) := SteerOne(s, text);
        (after, [request])
      else (s.(pending := s.pending + [text]), [])
    case Interrupt =>
      if Active(s) then
        (s.(nextId := s.nextId + 1, controls := s.controls[s.nextId := Interruption]),
         [InterruptTurn(s.nextId, s.threadId, s.turnId)])
      else (s, [])
    case OtherControl => (s, [])
  }

  function PollAll(s: State, controls: seq<Control>): (State, seq<Outgoing>) {
    if controls == [] then (s, [])
    else
      var (before, sent) := PollAll(s, Text.Init(controls));
      var (after, more) := PollOne(before, Text.Last(controls));
      (after, sent + more)
  }

  // ----- The controller object -----

  class Controller {
    var threadId: string
    var turnId: string
    var error: string
    var workStarted: bool
    var pending: seq<string>
    var nextProtocolId: int
    var nextId: int
    var controls: map<int, ControlKind>
    var threadIds: set<int>
    var turnIds: set<int>
    var threadStyle: Style
    var turnStyle: Style
    var threadTried: set<Style>
    var turnTried: set<Style>

    ghost function View(): State
      reads this
    {
      State(threadId, turnId, error, workStarted, pending, nextProtocolId, nextId, controls,
            threadIds, turnIds, threadStyle, turnStyle, threadTried, turnTried)
    }

    constructor ()
      ensures View() == START
    {
      threadId, turnId, error, workStarted, pending := "", "", "", false, [];
      nextProtocolId, nextId, controls, threadIds, turnIds := 2, 100, map[], {}, {};
      threadStyle, turnStyle, threadTried, turnTried := Kebab, Camel, {Kebab}, {Camel};
    }

    method HandleMessage(message: Incoming) returns (update: Update)
      modifies this
      ensures (View(), update) == OnMessage(old(View()), message)
    {
      match message
      case ServerRequest(id, _) =>
        update := Update([Answer(id)], false);
      case Response(id, reply) =>
        update := HandleResponse(id, reply);
      case TurnStarted(turn) =>
        if turn.Some? {
          turnId := turn.value;
        }
        workStarted := true;
        var sent := FlushPendingSteering();
        update := Update(sent, false);
      case TurnCompleted(status) =>
        match status {
          case Completed =>
          case Failed(text) => error := text;
          case Interrupted => error := INTERRUPTED;
        }
        update := Update([], true);
      case Progress =>
        update := QUIET;
    }

    method HandleResponse(id: Id, reply: Reply) returns (update: Update)
      modifies this
      ensures (View(), update) == OnMessage(old(View()), Response(id, reply))
    {
      var control := id.Number? && id.n in controls;
      if control {
        controls := controls - {id.n};
      }
      match reply
      case Failure(detail) =>
        var retry := SandboxCompatibilityRetry(id, detail);
        if retry.Some? {
          return retry.value;
        }
        if control {
          return QUIET;
        }
        error := detail;
        return Update([], true);
      case Success(thread, turn) =>
        if control || !id.Number? {
          return QUIET;
        }
        if id.n == 1 {
          var request := ThreadStartRequest();
          return Update([Initialized, request], false);
        }
        if id.n in threadIds {
          threadId := if thread.Some? then thread.value else "";
          if threadId == "" {
            error := NO_THREAD;
            return Update([], true);
          }
          var request := TurnStartRequest();
          return Update([request], false);
        }
        if id.n in turnIds {
          if turn.Some? {
            turnId := turn.value;
          }
          workStarted := turnId != "";
          var sent := FlushPendingSteering();
          return Update(sent, false);
        }
        return QUIET;
    }

    method SandboxCompatibilityRetry(id: Id, detail: string) returns (retry: Option<Update>)
      modifies this
      ensures match SandboxRetry(old(View()), id, detail)
              case Some((after, update)) => View() == after && retry == Some(update)
              case None => View() == old(View()) && retry == None
    {
      if !id.Number? || !VariantError(detail) {
        return None;
      }
      if id.n in threadIds && threadId == "" {
        var alternate := Alternate(threadStyle);
        if alternate in threadTried {
          return None;
        }
        threadStyle := alternate;
        threadTried := threadTried + {alternate};
        var request := ThreadStartRequest();
        return Some(Update([request], false));
      }
      if id.n in turnIds && !workStarted {
        var alternate := Alternate(turnStyle);
        if alternate in turnTried {
          return None;
        }
        turnStyle := alternate;
        turnTried := turnTried + {alternate};
        var request := TurnStartRequest();
        return Some(Update([request], false));
      }
      return None;
    }

    method ThreadStartRequest() returns (request: Outgoing)
      modifies this
      ensures (View(), request) == StartThread(old(View()))
    {
      request := ThreadStart(nextProtocolId, threadStyle);
      threadIds := threadIds + {nextProtocolId};
      nextProtocolId := nextProtocolId + 1;
    }

    method TurnStartRequest() returns (request: Outgoing)
      modifies this
      ensures (View(), request) == StartTurn(old(View()))
    {
      request := TurnStart(nextProtocolId, threadId, turnStyle);
      turnIds := turnIds + {nextProtocolId};
      nextProtocolId := nextProtocolId + 1;
    }

    method SteerRequest(text: string) returns (request: Outgoing)
      modifies this
      ensures (View(), request) == SteerOne(old(View()), text)
    {
      request := SteerTurn(nextId, threadId, turnId, text);
      controls := controls[nextId := Steering];
      nextId := nextId + 1;
    }

    method FlushPendingSteering() returns (sent: seq<Outgoing>)
      modifies this
      ensures (View(), sent) == Flush(old(View()))
    {
      sent := [];
      if threadId == "" || turnId == "" {
        return;
      }
      var texts := pending;
      pending := [];
      ghost var start := View();
      for i := 0 to |texts|
        invariant (View(), sent) == SteerAll(start, texts[..i])
      {
        assert Text.Init(texts[..i + 1]) == texts[..i];
        var request := SteerRequest(texts[i]);
        sent := sent + [request];
      }
      assert texts[..|texts|] == texts;
    }

    method PollControls(batch: seq<Control>) returns (sent: seq<Outgoing>)
      modifies this
      ensures (View(), sent) == PollAll(old(View()), batch)
    {
      sent := [];
      for i := 0 to |batch|
        invariant (View(), sent) == PollAll(old(View()), batch[..i])
      {
        assert Text.Init(batch[..i + 1]) == batch[..i];
        var more := PollControl(batch[i]);
        sent := sent + more;
      }
      assert batch[..|batch|] == batch;
    }

    method PollControl(control: Control) returns (sent: seq<Outgoing>)
      modifies this
      ensures (View(), sent) == PollOne(old(View()), control)
    {
      match control
      case Steer(data) =>
        var text := Text.Strip(data);
        if text == "" {
          return [];
        }
        if threadId != "" && turnId != "" {
          var request := SteerRequest(text);
          return [request];
        }
        pending := pending + [text];
        return [];
      case Interrupt =>
        if threadId == "" || turnId == "" {
          return [];
        }
        sent := [InterruptTurn(nextId, threadId, turnId)];
        controls := controls[nextId := Interruption];
        nextId := nextId + 1;
      case OtherControl =>
        return [];
    }
  }
}
