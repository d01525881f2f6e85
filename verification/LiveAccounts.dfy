/** What a live session comes to against a scripted environment
    (src/execraft/agents/live_session.py): the account of its stdin queue, output, activity and
    progress, and where its watchdogs, its output or the end of the process stop it. */
module LiveAccounts {
  import opened Json
  import opened Text
  import opened LiveFraming

  const DRAIN := 1.0

  /** `LiveSessionUpdate`; a callback returning None is the update that asks for nothing. */
  datatype Update<+M> = Update(outbound: seq<M>, completed: bool, terminate: bool)

  datatype Write = Wrote(count: nat) | WouldBlock | Broken
  datatype Read = Chunk(bytes: Bytes) | NotReady | EndOfFile

  /** One entry of `selector.select`, with the clock read after it. */
  datatype Ready =
    | Stdin(write: Write, clock: real)
    | Output(stdout: bool, read: Read, clock: real, classified: bool)

  /** What the environment does during one iteration. `input` is None when the input
      callback raised; `registers` tells whether stdin can be registered. */
  datatype Tick<+M> = Tick(
    head: real, alive: bool, input: Option<seq<M>>, registers: bool,
    select: real, ready: seq<Ready>, tail: real, cpuActive: bool)

  datatype Outcome =
    | Continue
    | FirstOutputTimeout
    | Expired
    | Inactive
    | OutputSilence
    | Classified
    | ProtocolError
    | Exited

  datatype Settings = Settings(
    timeout: Option<real>,
    startup: Option<real>,
    inactivity: Option<real>,
    silence: Option<real>,
    heartbeat: Option<real>,
    polls: bool,
    refresh: bool,
    closeOnComplete: bool,
    terminateOnComplete: bool)

  /** What the caller supplies. `respond` is the message callback: its answer to the latest of
      the messages delivered so far. */
  datatype Client<!M> = Client(
    settings: Settings, encode: M -> Bytes, parse: Bytes -> Parsed<M>, respond: seq<M> -> Update<M>)

  function Later(t: real, window: Option<real>): Option<real> {
    if window.Some? then Some(t + window.value) else None
  }

  predicate Due(deadline: Option<real>, now: real) {
    deadline.Some? && now >= deadline.value
  }

  // ----- Messages in and out -----

  function Encoded<M>(encode: M -> Bytes, messages: seq<M>): Bytes {
    if messages == [] then [] else Encoded(encode, Init(messages)) + encode(Last(messages))
  }

  lemma {:induction false} EncodedAppend<M>(encode: M -> Bytes, a: seq<M>, b: seq<M>)
    ensures Encoded(encode, a + b) == Encoded(encode, a) + Encoded(encode, b)
  {
    if b == [] {
      assert a + b == a;
    } else {
      EncodedAppend(encode, a, Init(b));
      assert Init(a + b) == a + Init(b) && Last(a + b) == Last(b);
    }
  }

  lemma EncodedNone<M>(encode: M -> Bytes)
    ensures Encoded(encode, []) == []
  {
  }

  lemma EncodedOne<M>(encode: M -> Bytes, messages: seq<M>, i: nat)
    requires i < |messages|
    ensures Encoded(encode, messages[..i + 1]) == Encoded(encode, messages[..i]) + encode(messages[i])
  {
    assert Init(messages[..i + 1]) == messages[..i];
  }

  /** What the callback asked to send in reply to the messages from `from` on. */
  function Replies<M>(respond: seq<M> -> Update<M>, messages: seq<M>, from: nat): seq<M> {
    if |messages| <= from then []
    else Replies(respond, Init(messages), from) + respond(messages).outbound
  }

  /** One of the messages has completed the protocol. */
  function CompletedBy<M>(respond: seq<M> -> Update<M>, messages: seq<M>): bool {
    messages != [] && (CompletedBy(respond, Init(messages)) || respond(messages).completed)
  }

  lemma OneCompleted<M>(respond: seq<M> -> Update<M>, messages: seq<M>, message: M)
    ensures CompletedBy(respond, messages + [message])
       <==> CompletedBy(respond, messages) || respond(messages + [message]).completed
  {
    assert Init(messages + [message]) == messages;
  }

  lemma NothingCompleted<M>(respond: seq<M> -> Update<M>)
    ensures !CompletedBy(respond, [])
  {
  }

  // ----- The stdin queue: the bytes waiting while stdin is open, None once it is closed -----

  /** How many of `size` waiting bytes a write takes. */
  function Taken(write: Write, size: nat): (n: nat)
    ensures n <= size
  {
    match write
    case Wrote(count) => if count < size then count else size
    case _ => 0
  }

  function TakenFrom(waiting: Option<nat>, write: Write): nat {
    if waiting.Some? then Taken(write, waiting.value) else 0
  }

  function AfterWrite(waiting: Option<nat>, write: Write): Option<nat> {
    if waiting.None? || (waiting.value > 0 && write.Broken?) then None
    else Some(waiting.value - Taken(write, waiting.value))
  }

  /** More bytes: an idle stdin must be registered again, and is given up if that fails. */
  function Fed(waiting: Option<nat>, count: nat, registers: bool): Option<nat> {
    if waiting.None? || (waiting.value == 0 && count > 0 && !registers) then None
    else Some(waiting.value + count)
  }

  function AfterUpdate<M>(client: Client<M>, waiting: Option<nat>, update: Update<M>, registers: bool): Option<nat> {
    if update.completed && client.settings.closeOnComplete then None
    else Fed(waiting, |Encoded(client.encode, update.outbound)|, registers)
  }

  // ----- The account -----

  /** Bytes received, messages asked to be sent, the stdin queue and what was written to it, the
      times of output and of activity, of the latest message and of the next heartbeat, what is
      still open, and when the process was first found dead. */
  datatype Account<M> = Account(
    received: Bytes, asked: seq<M>, waiting: Option<nat>, written: nat,
    outputs: seq<real>, activity: seq<real>, progress: real, heartbeat: Option<real>,
    stdoutOpen: bool, stderrOpen: bool, exitAt: Option<real>)

  function Opened<M>(client: Client<M>, started: real, initial: seq<M>): Account<M> {
    Account([], initial, Some(|Encoded(client.encode, initial)|), 0, [], [], started,
            Later(started, client.settings.heartbeat), true, true, None)
  }

  /** The messages from `from` on have been delivered and answered. */
  function Heard<M>(client: Client<M>, a: Account<M>, clock: real, registers: bool, messages: seq<M>, from: nat): Account<M> {
    if |messages| <= from then a
    else
      var b, update := Heard(client, a, clock, registers, Init(messages), from), client.respond(messages);
      b.(asked := b.asked + update.outbound,
         waiting := AfterUpdate(client, b.waiting, update, registers),
         progress := clock)
  }

  lemma HeardNone<M>(client: Client<M>, a: Account<M>, clock: real, registers: bool, messages: seq<M>)
    ensures Heard(client, a, clock, registers, messages, |messages|) == a
  {
  }

  lemma HeardOne<M>(client: Client<M>, a: Account<M>, clock: real, registers: bool, messages: seq<M>, message: M)
    ensures var update := client.respond(messages + [message]);
      Heard(client, a, clock, registers, messages + [message], |messages|)
      == a.(asked := a.asked + update.outbound, waiting := AfterUpdate(client, a.waiting, update, registers), progress := clock)
  {
    assert Init(messages + [message]) == messages;
    HeardNone(client, a, clock, registers, messages);
  }

  lemma {:induction false} HeardThen<M>(
    client: Client<M>, a: Account<M>, clock: real, registers: bool, earlier: seq<M>, messages: seq<M>, from: nat)
    requires from <= |earlier| && earlier <= messages
    ensures Heard(client, Heard(client, a, clock, registers, earlier, from), clock, registers, messages, |earlier|)
         == Heard(client, a, clock, registers, messages, from)
  {
    if |messages| == |earlier| {
      assert messages == earlier;
    } else {
      HeardThen(client, a, clock, registers, earlier, Init(messages), from);
    }
  }

  /** The entry brings output: bytes on stdout or stderr. */
  predicate Speaks(entry: Ready) {
    entry.Output? && entry.read.Chunk? && entry.read.bytes != []
  }

  /** The entry finds its stream at the end. */
  predicate HangsUp(entry: Ready) {
    entry.Output? && (entry.read.EndOfFile? || (entry.read.Chunk? && entry.read.bytes == []))
  }

  function AfterEntry<M>(client: Client<M>, a: Account<M>, entry: Ready, registers: bool): Account<M> {
    match entry
    case Stdin(write, clock) =>
      var n := TakenFrom(a.waiting, write);
      a.(waiting := AfterWrite(a.waiting, write), written := a.written + n,
         activity := if n > 0 then a.activity + [clock] else a.activity)
    case Output(stdout, read, clock, classified) =>
      if Speaks(entry) then
        var b := a.(outputs := a.outputs + [clock], activity := a.activity + [clock]);
        if classified || !stdout then b
        else
          var before := DeliveredFrom(client.parse, a.received);
          var received := a.received + read.bytes;
          Heard(client, b.(received := received), clock, registers, DeliveredFrom(client.parse, received), |before|)
      else if HangsUp(entry) then
        if stdout then a.(stdoutOpen := false) else a.(stderrOpen := false)
      else a
  }

  function AfterEntries<M>(client: Client<M>, a: Account<M>, ready: seq<Ready>, registers: bool): Account<M> {
    if ready == [] then a
    else AfterEntry(client, AfterEntries(client, a, Init(ready), registers), Last(ready), registers)
  }

  function PolledIn<M>(settings: Settings, completed: bool, tick: Tick<M>): seq<M> {
    if settings.polls && tick.alive && !completed && tick.input.Some? then tick.input.value else []
  }

  function Polled<M>(client: Client<M>, a: Account<M>, tick: Tick<M>): seq<M> {
    PolledIn(client.settings, CompletedBy(client.respond, DeliveredFrom(client.parse, a.received)), tick)
  }

  /** At the head of an iteration: the operator's input, and whether the process is there. */
  function AfterHead<M>(client: Client<M>, a: Account<M>, tick: Tick<M>): Account<M> {
    var polled := Polled(client, a, tick);
    a.(asked := a.asked + polled,
       waiting := Fed(a.waiting, |Encoded(client.encode, polled)|, tick.registers),
       exitAt := if !tick.alive && a.exitAt.None? then Some(tick.head) else a.exitAt)
  }

  /** At its end: the heartbeat, when one is due. */
  function AfterBeat<M>(client: Client<M>, a: Account<M>, tick: Tick<M>): Account<M> {
    if Due(a.heartbeat, tick.tail) then
      a.(heartbeat := Later(tick.tail, client.settings.heartbeat),
         activity := if tick.cpuActive then a.activity + [tick.tail] else a.activity)
    else a
  }

  function AfterTick<M>(client: Client<M>, a: Account<M>, tick: Tick<M>): Account<M> {
    AfterBeat(client, AfterEntries(client, AfterHead(client, a, tick), tick.ready, tick.registers), tick)
  }

  function AfterScript<M>(client: Client<M>, started: real, initial: seq<M>, script: seq<Tick<M>>): Account<M> {
    if script == [] then Opened(client, started, initial)
    else AfterTick(client, AfterScript(client, started, initial, Init(script)), Last(script))
  }

  /** After `rounds` whole iterations and, in the one after them, its head and `taken` entries. */
  function AccountAt<M>(
    client: Client<M>, started: real, initial: seq<M>, script: seq<Tick<M>>, rounds: nat, taken: Option<nat>): Account<M>
    requires rounds <= |script|
    requires taken.Some? ==> rounds < |script| && taken.value <= |script[rounds].ready|
  {
    var a := AfterScript(client, started, initial, script[..rounds]);
    match taken
    case None => a
    case Some(n) =>
      var tick := script[rounds];
      AfterEntries(client, AfterHead(client, a, tick), tick.ready[..n], tick.registers)
  }

  // ----- Where a session stops -----

  /** None of `times`, nor the start of the session, is within the window before `now`. */
  ghost predicate Quiet(started: real, times: seq<real>, window: Option<real>, now: real) {
    && window.Some?
    && started + window.value <= now
    && forall t :: t in times ==> t + window.value <= now
  }

  /** The window for the next message: at first the one for starting up. */
  function DeadlineOf(settings: Settings, started: real, spoken: bool, progress: real): Option<real> {
    if spoken && settings.refresh && settings.timeout.Some? then Later(progress, settings.timeout)
    else Later(started, if settings.startup.Some? then settings.startup else settings.timeout)
  }

  /** Which watchdog ends a session at `now`, if any. */
  ghost function WatchdogAt<M>(client: Client<M>, started: real, a: Account<M>, now: real): Outcome {
    var settings, spoken := client.settings, DeliveredFrom(client.parse, a.received) != [];
    if Due(DeadlineOf(settings, started, spoken, a.progress), now) then
      if !spoken && settings.startup.Some? then FirstOutputTimeout else Expired
    else if Quiet(started, a.activity, settings.inactivity, now) then Inactive
    else if Quiet(started, a.outputs, settings.silence, now) then OutputSilence
    else Continue
  }

  /** Nothing is left to write or to read. */
  predicate Drained<M>(a: Account<M>) {
    (a.waiting.None? || a.waiting.value == 0) && !a.stdoutOpen && !a.stderrOpen
  }

  /** What the head of an iteration that finds `a` decides. */
  ghost function HeadOutcome<M>(client: Client<M>, started: real, a: Account<M>, tick: Tick<M>): Outcome {
    if tick.alive then WatchdogAt(client, started, a, tick.head)
    else
      var b := AfterHead(client, a, tick);
      if Drained(b) || (b.exitAt.Some? && tick.head - b.exitAt.value >= DRAIN) then Exited else Continue
  }

  ghost function EntryOutcome<M>(client: Client<M>, a: Account<M>, entry: Ready, registers: bool): Outcome {
    if Speaks(entry) && entry.classified then Classified
    else if Acceptable(client.parse, AfterEntry(client, a, entry, registers).received) then Continue
    else ProtocolError
  }

  ghost predicate EntriesPass<M>(client: Client<M>, a: Account<M>, ready: seq<Ready>, registers: bool, n: nat)
    requires n <= |ready|
  {
    forall j :: 0 <= j < n ==>
      EntryOutcome(client, AfterEntries(client, a, ready[..j], registers), ready[j], registers) == Continue
  }

  /** An iteration that finds `a` ends after `taken` entries, at its head if there are none. */
  ghost predicate TickEnds<M>(client: Client<M>, started: real, a: Account<M>, tick: Tick<M>, taken: nat, outcome: Outcome) {
    if HeadOutcome(client, started, a, tick) != Continue then taken == 0 && outcome == HeadOutcome(client, started, a, tick)
    else
      var b := AfterHead(client, a, tick);
      && taken <= |tick.ready|
      && (if outcome == Continue then taken == |tick.ready| && EntriesPass(client, b, tick.ready, tick.registers, taken)
          else
            && 0 < taken && EntriesPass(client, b, tick.ready, tick.registers, taken - 1)
            && outcome == EntryOutcome(client, AfterEntries(client, b, tick.ready[..taken - 1], tick.registers),
                                       tick.ready[taken - 1], tick.registers))
  }

  /** Nothing in an iteration that finds `a` stops the session. */
  ghost predicate TickPasses<M>(client: Client<M>, started: real, a: Account<M>, tick: Tick<M>) {
    TickEnds(client, started, a, tick, |tick.ready|, Continue)
  }

  ghost predicate Reaches<M>(client: Client<M>, started: real, initial: seq<M>, script: seq<Tick<M>>, rounds: nat)
    requires rounds <= |script|
  {
    forall k :: 0 <= k < rounds ==> TickPasses(client, started, AfterScript(client, started, initial, script[..k]), script[k])
  }

  /** The session ends in iteration `rounds`, the first that something stops, or with the script. */
  ghost predicate Ends<M>(
    client: Client<M>, started: real, initial: seq<M>, script: seq<Tick<M>>, rounds: nat, taken: Option<nat>, outcome: Outcome)
  {
    && rounds <= |script| && Reaches(client, started, initial, script, rounds)
    && match taken
       case None => rounds == |script| && outcome == Continue
       case Some(n) =>
         && rounds < |script| && n <= |script[rounds].ready| && outcome != Continue
         && TickEnds(client, started, AfterScript(client, started, initial, script[..rounds]), script[rounds], n, outcome)
  }

  /** The watchdogs only look at what was received and at the three kinds of times. */
  lemma SameWatchdog<M>(client: Client<M>, started: real, a: Account<M>, b: Account<M>, now: real)
    requires a.received == b.received && a.progress == b.progress && a.activity == b.activity && a.outputs == b.outputs
    ensures WatchdogAt(client, started, a, now) == WatchdogAt(client, started, b, now)
  {
  }

  lemma NoEntries<M>(client: Client<M>, a: Account<M>, registers: bool)
    ensures AfterEntries(client, a, [], registers) == a
  {
  }

  lemma Passed<M>(client: Client<M>, started: real, a: Account<M>, tick: Tick<M>, n: nat)
    requires TickEnds(client, started, a, tick, n, Continue)
    ensures TickPasses(client, started, a, tick)
  {
  }

  // ----- What the account says: received, delivered and asked for -----

  /** The bytes of stdout among what was ready; a classified chunk ends the session instead. */
  function StdoutBytes(ready: seq<Ready>): Bytes {
    if ready == [] then []
    else
      StdoutBytes(Init(ready))
      + match Last(ready)
        case Output(true, Chunk(bytes), _, false) => bytes
        case _ => []
  }

  function ScriptBytes<M>(script: seq<Tick<M>>): Bytes {
    if script == [] then [] else ScriptBytes(Init(script)) + StdoutBytes(Last(script).ready)
  }

  /** What is asked to be sent over whole iterations: in each the polled input, then the
      replies to the messages it delivers. */
  function AskedBy<M>(client: Client<M>, script: seq<Tick<M>>): seq<M> {
    if script == [] then []
    else
      var before := DeliveredFrom(client.parse, ScriptBytes(Init(script)));
      var tick := Last(script);
      var polls := client.settings.polls && tick.alive && tick.input.Some? && !CompletedBy(client.respond, before);
      AskedBy(client, Init(script))
      + (if polls then tick.input.value else [])
      + Replies(client.respond, DeliveredFrom(client.parse, ScriptBytes(script)), |before|)
  }

  lemma {:induction false} RepliesSplit<M>(respond: seq<M> -> Update<M>, messages: seq<M>, from: nat, mid: nat)
    requires from <= mid <= |messages|
    ensures Replies(respond, messages, from) == Replies(respond, messages[..mid], from) + Replies(respond, messages, mid)
  {
    if mid == |messages| {
      assert messages[..mid] == messages;
    } else {
      RepliesSplit(respond, Init(messages), from, mid);
      assert Init(messages)[..mid] == messages[..mid];
      var a, b, c := Replies(respond, messages[..mid], from), Replies(respond, Init(messages), mid), respond(messages).outbound;
      assert Replies(respond, messages, from) == (a + b) + c && Replies(respond, messages, mid) == b + c;
      assert (a + b) + c == a + (b + c);
    }
  }

  /** Hearing messages leaves all but the replies, the queue and the latest message alone. */
  lemma {:induction false} HeardAsks<M>(
    client: Client<M>, a: Account<M>, clock: real, registers: bool, messages: seq<M>, from: nat)
    ensures var b := Heard(client, a, clock, registers, messages, from);
      && b.asked == a.asked + Replies(client.respond, messages, from)
      && b == a.(asked := b.asked, waiting := b.waiting, progress := if |messages| > from then clock else a.progress)
  {
    if |messages| > from {
      HeardAsks(client, a, clock, registers, Init(messages), from);
    }
  }

  /** From `a` to `b`, `bytes` were received and the messages in them answered. */
  ghost predicate Extended<M>(client: Client<M>, a: Account<M>, b: Account<M>, bytes: Bytes) {
    var before, after := DeliveredFrom(client.parse, a.received), DeliveredFrom(client.parse, a.received + bytes);
    && b.received == a.received + bytes
    && before <= after && b.asked == a.asked + Replies(client.respond, after, |before|)
    && b.heartbeat == a.heartbeat && b.exitAt == a.exitAt
  }

  lemma ExtendedSelf<M>(client: Client<M>, a: Account<M>)
    ensures Extended(client, a, a, [])
  {
    hide DeliveredFrom;
    assert a.received + [] == a.received;
    NothingAsked(client, a.asked, DeliveredFrom(client.parse, a.received));
  }

  lemma ExtendedThen<M>(client: Client<M>, a: Account<M>, b: Account<M>, c: Account<M>, bytes: Bytes, more: Bytes)
    requires Extended(client, a, b, bytes) && Extended(client, b, c, more)
    ensures Extended(client, a, c, bytes + more)
  {
    hide DeliveredFrom, Replies;
    assert a.received + bytes + more == a.received + (bytes + more);
    RepliesThen(client.respond, DeliveredFrom(client.parse, b.received), DeliveredFrom(client.parse, c.received),
                |DeliveredFrom(client.parse, a.received)|, a.asked);
  }

  lemma EntryAccounts<M>(client: Client<M>, a: Account<M>, entry: Ready, registers: bool)
    ensures var b, before := AfterEntry(client, a, entry, registers), DeliveredFrom(client.parse, a.received);
      && Extended(client, a, b, StdoutBytes([entry]))
      && b.progress == (if |DeliveredFrom(client.parse, b.received)| > |before| then entry.clock else a.progress)
      && b.outputs == (if Speaks(entry) then a.outputs + [entry.clock] else a.outputs)
      && b.activity == (if Speaks(entry) || Writes(a, entry)
                        then a.activity + [entry.clock] else a.activity)
  {
    hide DeliveredFrom, Heard, Replies, AfterUpdate;
    assert Init([entry]) == [] && [] + StdoutBytes([entry]) == StdoutBytes([entry]) && a.received + [] == a.received;
    var before := DeliveredFrom(client.parse, a.received);
    NothingAsked(client, a.asked, before);
    if entry.Output? && Speaks(entry) && entry.stdout && !entry.classified {
      var received := a.received + entry.read.bytes;
      assert StdoutBytes([entry]) == entry.read.bytes;
      DeliveredGrows(client.parse, a.received, entry.read.bytes);
      var b := a.(outputs := a.outputs + [entry.clock], activity := a.activity + [entry.clock], received := received);
      HeardAsks(client, b, entry.clock, registers, DeliveredFrom(client.parse, received), |before|);
    } else {
      assert StdoutBytes([entry]) == [];
    }
  }

  lemma NothingAsked<M>(client: Client<M>, asked: seq<M>, messages: seq<M>)
    ensures asked + Replies(client.respond, messages, |messages|) == asked
  {
  }

  lemma StdoutOn(ready: seq<Ready>)
    requires ready != []
    ensures StdoutBytes(ready) == StdoutBytes(Init(ready)) + StdoutBytes([Last(ready)])
  {
    assert Init([Last(ready)]) == [];
  }

  /** What was received and asked for after some entries is fixed by their bytes. */
  lemma {:induction false} EntriesAccount<M>(client: Client<M>, a: Account<M>, ready: seq<Ready>, registers: bool)
    ensures Extended(client, a, AfterEntries(client, a, ready, registers), StdoutBytes(ready))
  {
    hide AfterEntry, StdoutBytes, Extended;
    if ready == [] {
      ExtendedSelf(client, a);
      NoStdout();
    } else {
      var b := AfterEntries(client, a, Init(ready), registers);
      EntriesAccount(client, a, Init(ready), registers);
      EntryAccounts(client, b, Last(ready), registers);
      ExtendedThen(client, a, b, AfterEntry(client, b, Last(ready), registers), StdoutBytes(Init(ready)), StdoutBytes([Last(ready)]));
      StdoutOn(ready);
    }
  }

  lemma NoStdout()
    ensures StdoutBytes([]) == []
  {
  }

  lemma RepliesThen<M>(respond: seq<M> -> Update<M>, earlier: seq<M>, messages: seq<M>, from: nat, before: seq<M>)
    requires from <= |earlier| && earlier <= messages
    ensures before + Replies(respond, earlier, from) + Replies(respond, messages, |earlier|)
         == before + Replies(respond, messages, from)
  {
    RepliesSplit(respond, messages, from, |earlier|);
    assert messages[..|earlier|] == earlier;
  }

  /** After whole iterations likewise. */
  lemma {:induction false} ScriptAccounts<M>(client: Client<M>, started: real, initial: seq<M>, script: seq<Tick<M>>)
    ensures var a := AfterScript(client, started, initial, script);
      a.received == ScriptBytes(script) && a.asked == initial + AskedBy(client, script)
  {
    hide DeliveredFrom, Replies, AfterEntries, StdoutBytes, CompletedBy, Fed, Encoded;
    if script == [] {
      assert initial + [] == initial;
    } else {
      var tick, a := Last(script), AfterScript(client, started, initial, Init(script));
      ScriptAccounts(client, started, initial, Init(script));
      EntriesAccount(client, AfterHead(client, a, tick), tick.ready, tick.registers);
      var polled, replies := Polled(client, a, tick),
        Replies(client.respond, DeliveredFrom(client.parse, ScriptBytes(script)), |DeliveredFrom(client.parse, a.received)|);
      assert initial + AskedBy(client, Init(script)) + polled + replies
          == initial + (AskedBy(client, Init(script)) + polled + replies);
    }
  }

  /** What a session has received and asked for after `rounds` whole iterations and, once it has
      stopped, after `taken` entries of the next. */
  ghost predicate Accounted<M>(
    client: Client<M>, initial: seq<M>, script: seq<Tick<M>>, rounds: nat, taken: Option<nat>, received: Bytes, asked: seq<M>)
  {
    && rounds <= |script|
    && var whole := ScriptBytes(script[..rounds]);
       match taken
       case None => received == whole && asked == initial + AskedBy(client, script[..rounds])
       case Some(n) =>
         && rounds < |script| && n <= |script[rounds].ready|
         && received == whole + StdoutBytes(script[rounds].ready[..n])
         && var before := DeliveredFrom(client.parse, whole);
            asked == initial + AskedBy(client, script[..rounds])
              + (if client.settings.polls && script[rounds].alive && script[rounds].input.Some?
                    && !CompletedBy(client.respond, before) then script[rounds].input.value else [])
              + Replies(client.respond, DeliveredFrom(client.parse, received), |before|)
  }

  lemma AccountAccounts<M>(
    client: Client<M>, started: real, initial: seq<M>, script: seq<Tick<M>>, rounds: nat, taken: Option<nat>)
    requires rounds <= |script|
    requires taken.Some? ==> rounds < |script| && taken.value <= |script[rounds].ready|
    ensures var a := AccountAt(client, started, initial, script, rounds, taken);
      Accounted(client, initial, script, rounds, taken, a.received, a.asked)
  {
    hide DeliveredFrom, Replies, AfterEntries, StdoutBytes, CompletedBy, Fed, Encoded;
    ScriptAccounts(client, started, initial, script[..rounds]);
    if taken.Some? {
      var tick, a := script[rounds], AfterScript(client, started, initial, script[..rounds]);
      EntriesAccount(client, AfterHead(client, a, tick), tick.ready[..taken.value], tick.registers);
    }
  }

  // ----- What the account says: the queue -----

  /** While stdin is open, everything asked for is written or waits. */
  predicate Conserved<M>(client: Client<M>, a: Account<M>) {
    a.waiting.Some? ==> a.written + a.waiting.value == |Encoded(client.encode, a.asked)|
  }

  lemma FeedingConserves<M>(client: Client<M>, a: Account<M>, messages: seq<M>, registers: bool)
    requires Conserved(client, a)
    ensures Conserved(client,
      a.(asked := a.asked + messages, waiting := Fed(a.waiting, |Encoded(client.encode, messages)|, registers)))
  {
    EncodedAppend(client.encode, a.asked, messages);
  }

  lemma {:induction false} HearingConserves<M>(
    client: Client<M>, a: Account<M>, clock: real, registers: bool, messages: seq<M>, from: nat)
    requires Conserved(client, a)
    ensures Conserved(client, Heard(client, a, clock, registers, messages, from))
  {
    hide Encoded, Fed;
    if |messages| > from {
      HearingConserves(client, a, clock, registers, Init(messages), from);
      FeedingConserves(client, Heard(client, a, clock, registers, Init(messages), from),
                       client.respond(messages).outbound, registers);
    }
  }

  lemma {:induction false} EntriesConserve<M>(client: Client<M>, a: Account<M>, ready: seq<Ready>, registers: bool)
    requires Conserved(client, a)
    ensures Conserved(client, AfterEntries(client, a, ready, registers))
    ensures a.written <= AfterEntries(client, a, ready, registers).written
  {
    hide Encoded, Heard, DeliveredFrom;
    if ready != [] {
      var b, entry := AfterEntries(client, a, Init(ready), registers), Last(ready);
      EntriesConserve(client, a, Init(ready), registers);
      if entry.Output? && Speaks(entry) && entry.stdout && !entry.classified {
        var received := b.received + entry.read.bytes;
        var heard := b.(outputs := b.outputs + [entry.clock], activity := b.activity + [entry.clock], received := received);
        var messages, from := DeliveredFrom(client.parse, received), |DeliveredFrom(client.parse, b.received)|;
        HearingConserves(client, heard, entry.clock, registers, messages, from);
        HeardAsks(client, heard, entry.clock, registers, messages, from);
      }
    }
  }

  lemma {:induction false} ScriptConserves<M>(client: Client<M>, started: real, initial: seq<M>, script: seq<Tick<M>>)
    ensures Conserved(client, AfterScript(client, started, initial, script))
  {
    hide Encoded, AfterEntries, Fed, PolledIn;
    if script != [] {
      var tick, a := Last(script), AfterScript(client, started, initial, Init(script));
      ScriptConserves(client, started, initial, Init(script));
      FeedingConserves(client, a, Polled(client, a, tick), tick.registers);
      EntriesConserve(client, AfterHead(client, a, tick), tick.ready, tick.registers);
    }
  }

  // ----- What the account says: the times the watchdogs go by -----

  ghost predicate OutputAmong(ready: seq<Ready>, t: real) {
    exists j :: 0 <= j < |ready| && ready[j].clock == t
      && ready[j].Output? && ready[j].read.Chunk? && ready[j].read.bytes != []
  }

  /** A write among `ready` takes bytes at `t`; the first entry finds `a`. */
  ghost predicate WriteAmong<M>(client: Client<M>, a: Account<M>, ready: seq<Ready>, registers: bool, t: real) {
    exists j :: 0 <= j < |ready| && Writes(AfterEntries(client, a, ready[..j], registers), ready[j]) && ready[j].clock == t
  }

  predicate Writes<M>(a: Account<M>, entry: Ready) {
    entry.Stdin? && TakenFrom(a.waiting, entry.write) > 0
  }

  /** A heartbeat that is due at the end of the iteration finds the processor busy. */
  predicate BeatDuring<M>(a: Account<M>, tick: Tick<M>, t: real) {
    tick.cpuActive && t == tick.tail && Due(a.heartbeat, tick.tail)
  }

  ghost predicate ActiveDuring<M>(client: Client<M>, a: Account<M>, tick: Tick<M>, t: real) {
    || OutputAmong(tick.ready, t)
    || WriteAmong(client, AfterHead(client, a, tick), tick.ready, tick.registers, t)
    || BeatDuring(a, tick, t)
  }

  /** Some iteration brings output at `t`; and activity. */
  ghost predicate OutputBy<M>(script: seq<Tick<M>>, t: real) {
    exists k :: 0 <= k < |script| && OutputAmong(script[k].ready, t)
  }

  ghost predicate ActiveBy<M>(client: Client<M>, started: real, initial: seq<M>, script: seq<Tick<M>>, t: real) {
    exists k :: 0 <= k < |script| && ActiveDuring(client, AfterScript(client, started, initial, script[..k]), script[k], t)
  }

  lemma OutputOn(ready: seq<Ready>, t: real)
    requires ready != []
    ensures OutputAmong(ready, t) <==> OutputAmong(Init(ready), t) || (Speaks(Last(ready)) && Last(ready).clock == t)
  {
    assert forall j :: 0 <= j < |ready| - 1 ==> Init(ready)[j] == ready[j];
  }

  lemma WriteOn<M>(client: Client<M>, a: Account<M>, ready: seq<Ready>, registers: bool, t: real)
    requires ready != []
    ensures WriteAmong(client, a, ready, registers, t) <==>
      || WriteAmong(client, a, Init(ready), registers, t)
      || (Writes(AfterEntries(client, a, Init(ready), registers), Last(ready)) && Last(ready).clock == t)
  {
    hide AfterEntries, Writes;
    assert ready[..|ready| - 1] == Init(ready);
    assert forall j :: 0 <= j < |ready| - 1 ==> Init(ready)[j] == ready[j] && Init(ready)[..j] == ready[..j];
  }

  lemma {:induction false} EntriesTimed<M>(client: Client<M>, a: Account<M>, ready: seq<Ready>, registers: bool, t: real)
    ensures var b := AfterEntries(client, a, ready, registers);
      && (t in b.outputs <==> t in a.outputs || OutputAmong(ready, t))
      && (t in b.activity <==> t in a.activity || OutputAmong(ready, t) || WriteAmong(client, a, ready, registers, t))
  {
    hide AfterEntry, TakenFrom, Speaks, StdoutBytes, DeliveredFrom, Extended, Replies;
    if ready != [] {
      hide OutputAmong, WriteAmong;
      EntriesTimed(client, a, Init(ready), registers, t);
      EntryAccounts(client, AfterEntries(client, a, Init(ready), registers), Last(ready), registers);
      OutputOn(ready, t);
      WriteOn(client, a, ready, registers, t);
    }
  }

  /** Output is noted exactly when bytes came on stdout or stderr. */
  lemma {:induction false} OutputsExactly<M>(client: Client<M>, started: real, initial: seq<M>, script: seq<Tick<M>>, t: real)
    ensures t in AfterScript(client, started, initial, script).outputs <==> OutputBy(script, t)
  {
    hide AfterEntries, Fed, Polled, Speaks, Encoded;
    if script != [] {
      var n, earlier := |script| - 1, Init(script);
      OutputsExactly(client, started, initial, earlier, t);
      EntriesTimed(client, AfterHead(client, AfterScript(client, started, initial, earlier), script[n]),
                   script[n].ready, script[n].registers, t);
      assert forall k :: 0 <= k < n ==> earlier[k] == script[k];
    }
  }

  lemma TickActivity<M>(client: Client<M>, a: Account<M>, tick: Tick<M>, t: real)
    ensures t in AfterTick(client, a, tick).activity <==> t in a.activity || ActiveDuring(client, a, tick, t)
  {
    hide AfterEntries, Fed, Polled, Speaks, Encoded, TakenFrom, StdoutBytes, DeliveredFrom, Replies;
    EntriesTimed(client, AfterHead(client, a, tick), tick.ready, tick.registers, t);
    EntriesAccount(client, AfterHead(client, a, tick), tick.ready, tick.registers);
  }

  /** Activity is output, a write that took bytes, or a heartbeat that found the processor busy. */
  lemma {:induction false} ActivityExactly<M>(client: Client<M>, started: real, initial: seq<M>, script: seq<Tick<M>>, t: real)
    ensures t in AfterScript(client, started, initial, script).activity <==> ActiveBy(client, started, initial, script, t)
  {
    hide AfterTick, ActiveBy, ActiveDuring, Encoded;
    if script == [] {
      NeverActive(client, started, initial, t);
    } else {
      var n, earlier := |script| - 1, Init(script);
      ActivityExactly(client, started, initial, earlier, t);
      TickActivity(client, AfterScript(client, started, initial, earlier), script[n], t);
      ActiveOn(client, started, initial, script, t);
    }
  }

  lemma NeverActive<M>(client: Client<M>, started: real, initial: seq<M>, t: real)
    ensures !ActiveBy(client, started, initial, [], t)
  {
  }

  lemma ActiveOn<M>(client: Client<M>, started: real, initial: seq<M>, script: seq<Tick<M>>, t: real)
    requires script != []
    ensures ActiveBy(client, started, initial, script, t) <==>
      || ActiveBy(client, started, initial, Init(script), t)
      || ActiveDuring(client, AfterScript(client, started, initial, Init(script)), Last(script), t)
  {
    hide AfterScript, ActiveDuring;
    var n, earlier := |script| - 1, Init(script);
    assert script[..n] == earlier;
    assert forall k :: 0 <= k < n ==> earlier[k] == script[k] && earlier[..k] == script[..k];
  }

  /** The clock of the last entry that delivers a message, `from` if none does. */
  function ProgressIn<M>(parse: Bytes -> Parsed<M>, received: Bytes, from: real, ready: seq<Ready>): real {
    if ready == [] then from
    else if |DeliveredFrom(parse, received + StdoutBytes(ready))| > |DeliveredFrom(parse, received + StdoutBytes(Init(ready)))|
    then Last(ready).clock
    else ProgressIn(parse, received, from, Init(ready))
  }

  function ProgressBy<M>(parse: Bytes -> Parsed<M>, started: real, script: seq<Tick<M>>): real {
    if script == [] then started
    else ProgressIn(parse, ScriptBytes(Init(script)), ProgressBy(parse, started, Init(script)), Last(script).ready)
  }

  lemma {:induction false} EntriesProgress<M>(client: Client<M>, a: Account<M>, ready: seq<Ready>, registers: bool)
    ensures AfterEntries(client, a, ready, registers).progress == ProgressIn(client.parse, a.received, a.progress, ready)
  {
    hide AfterEntry, DeliveredFrom, StdoutBytes, Replies;
    if ready != [] {
      EntriesProgress(client, a, Init(ready), registers);
      EntriesAccount(client, a, Init(ready), registers);
      EntriesAccount(client, a, ready, registers);
      EntryAccounts(client, AfterEntries(client, a, Init(ready), registers), Last(ready), registers);
    }
  }

  /** Progress is noted exactly when a message is delivered. */
  lemma {:induction false} ProgressExactly<M>(client: Client<M>, started: real, initial: seq<M>, script: seq<Tick<M>>)
    ensures AfterScript(client, started, initial, script).progress == ProgressBy(client.parse, started, script)
  {
    hide AfterEntries, ProgressIn, Fed, Polled, Encoded;
    if script != [] {
      var a, tick := AfterScript(client, started, initial, Init(script)), Last(script);
      ProgressExactly(client, started, initial, Init(script));
      ScriptAccounts(client, started, initial, Init(script));
      EntriesProgress(client, AfterHead(client, a, tick), tick.ready, tick.registers);
    }
  }

  // ----- What the account says: heartbeats, streams and the end of the process -----

  ghost predicate HungAmong(ready: seq<Ready>, stdout: bool) {
    exists j :: 0 <= j < |ready| && ready[j].Output? && ready[j].stdout == stdout
      && (ready[j].read == EndOfFile || ready[j].read == Chunk([]))
  }

  ghost predicate HungBy<M>(script: seq<Tick<M>>, stdout: bool) {
    exists k :: 0 <= k < |script| && HungAmong(script[k].ready, stdout)
  }

  lemma {:induction false} HeardKeepsOpen<M>(
    client: Client<M>, a: Account<M>, clock: real, registers: bool, messages: seq<M>, from: nat)
    ensures var b := Heard(client, a, clock, registers, messages, from);
      b.stdoutOpen == a.stdoutOpen && b.stderrOpen == a.stderrOpen
  {
    HeardAsks(client, a, clock, registers, messages, from);
  }

  lemma EntryStreams<M>(client: Client<M>, a: Account<M>, entry: Ready, registers: bool)
    ensures var b := AfterEntry(client, a, entry, registers);
      var hung := entry.Output? && (entry.read == EndOfFile || entry.read == Chunk([]));
      && b.stdoutOpen == (a.stdoutOpen && !(hung && entry.stdout))
      && b.stderrOpen == (a.stderrOpen && !(hung && !entry.stdout))
  {
    hide Heard, DeliveredFrom;
    if entry.Output? && Speaks(entry) && entry.stdout && !entry.classified {
      var received := a.received + entry.read.bytes;
      var b := a.(outputs := a.outputs + [entry.clock], activity := a.activity + [entry.clock], received := received);
      HeardKeepsOpen(client, b, entry.clock, registers, DeliveredFrom(client.parse, received), |DeliveredFrom(client.parse, a.received)|);
    }
  }

  lemma HungOn(ready: seq<Ready>, stdout: bool)
    requires ready != []
    ensures HungAmong(ready, stdout) <==>
      || HungAmong(Init(ready), stdout)
      || (Last(ready).Output? && Last(ready).stdout == stdout && (Last(ready).read == EndOfFile || Last(ready).read == Chunk([])))
  {
    assert forall j :: 0 <= j < |ready| - 1 ==> Init(ready)[j] == ready[j];
  }

  lemma {:induction false} EntriesStreams<M>(client: Client<M>, a: Account<M>, ready: seq<Ready>, registers: bool)
    ensures var b := AfterEntries(client, a, ready, registers);
      && b.stdoutOpen == (a.stdoutOpen && !HungAmong(ready, true))
      && b.stderrOpen == (a.stderrOpen && !HungAmong(ready, false))
  {
    if ready != [] {
      hide AfterEntry, HungAmong;
      EntriesStreams(client, a, Init(ready), registers);
      EntryStreams(client, AfterEntries(client, a, Init(ready), registers), Last(ready), registers);
      HungOn(ready, true);
      HungOn(ready, false);
    }
  }

  lemma HungByOn<M>(script: seq<Tick<M>>, stdout: bool)
    requires script != []
    ensures HungBy(script, stdout) <==> HungBy(Init(script), stdout) || HungAmong(Last(script).ready, stdout)
  {
    hide HungAmong;
    assert forall k :: 0 <= k < |script| - 1 ==> Init(script)[k] == script[k];
  }

  /** A stream is open until it is found at its end. */
  lemma {:induction false} StreamsExactly<M>(client: Client<M>, started: real, initial: seq<M>, script: seq<Tick<M>>)
    ensures var a := AfterScript(client, started, initial, script);
      && (a.stdoutOpen <==> !HungBy(script, true)) && (a.stderrOpen <==> !HungBy(script, false))
  {
    if script != [] {
      hide AfterEntries, Fed, Polled, Encoded, HungAmong, HungBy;
      var a, tick := AfterScript(client, started, initial, Init(script)), Last(script);
      StreamsExactly(client, started, initial, Init(script));
      EntriesStreams(client, AfterHead(client, a, tick), tick.ready, tick.registers);
      HungByOn(script, true);
      HungByOn(script, false);
    }
  }

  /** When the last heartbeat was: the end of the last iteration that found an interval passed. */
  function LastBeat<M>(interval: real, started: real, script: seq<Tick<M>>): real {
    if script == [] then started
    else
      var last := LastBeat(interval, started, Init(script));
      if Last(script).tail >= last + interval then Last(script).tail else last
  }

  /** The next heartbeat is due an interval after the last one. */
  lemma {:induction false} HeartbeatExactly<M>(client: Client<M>, started: real, initial: seq<M>, script: seq<Tick<M>>)
    ensures var interval, next := client.settings.heartbeat, AfterScript(client, started, initial, script).heartbeat;
      next == if interval.Some? then Some(LastBeat(interval.value, started, script) + interval.value) else None
  {
    if script != [] {
      hide AfterEntries, Fed, Polled, Encoded, Extended;
      HeartbeatExactly(client, started, initial, Init(script));
      HeadAndEntriesKeepBeat(client, AfterScript(client, started, initial, Init(script)), Last(script));
    }
  }

  lemma HeadAndEntriesKeepBeat<M>(client: Client<M>, a: Account<M>, tick: Tick<M>)
    ensures AfterEntries(client, AfterHead(client, a, tick), tick.ready, tick.registers).heartbeat == a.heartbeat
  {
    hide AfterEntries, Fed, Polled, Encoded;
    EntriesAccount(client, AfterHead(client, a, tick), tick.ready, tick.registers);
  }

  /** The process counts as gone since the first iteration that found it so. */
  lemma {:induction false} GoneSince<M>(client: Client<M>, started: real, initial: seq<M>, script: seq<Tick<M>>)
    ensures var at := AfterScript(client, started, initial, script).exitAt;
      && (at == None <==> forall k :: 0 <= k < |script| ==> script[k].alive)
      && forall k :: 0 <= k < |script| && !script[k].alive && (forall i :: 0 <= i < k ==> script[i].alive) ==>
           at == Some(script[k].head)
  {
    hide AfterEntries, Fed, Polled, Encoded, StdoutBytes, DeliveredFrom, Replies;
    if script != [] {
      var a, tick, earlier := AfterScript(client, started, initial, Init(script)), Last(script), Init(script);
      GoneSince(client, started, initial, earlier);
      EntriesAccount(client, AfterHead(client, a, tick), tick.ready, tick.registers);
      assert forall k :: 0 <= k < |earlier| ==> earlier[k] == script[k];
    }
  }

  // ----- What the end says -----

  /** There is one end: where, after how many entries, and how. */
  lemma EndsOnce<M>(
    client: Client<M>, started: real, initial: seq<M>, script: seq<Tick<M>>,
    rounds: nat, taken: Option<nat>, outcome: Outcome, rounds': nat, taken': Option<nat>, outcome': Outcome)
    requires Ends(client, started, initial, script, rounds, taken, outcome)
    requires Ends(client, started, initial, script, rounds', taken', outcome')
    ensures rounds == rounds' && taken == taken' && outcome == outcome'
  {
    EndsNoLater(client, started, initial, script, rounds, taken, outcome, rounds', taken', outcome');
    EndsNoLater(client, started, initial, script, rounds', taken', outcome', rounds, taken, outcome);
    if taken.Some? {
      TickEndsOnce(client, started, AfterScript(client, started, initial, script[..rounds]), script[rounds],
                   taken.value, outcome, taken'.value, outcome');
    }
  }

  lemma EndsNoLater<M>(
    client: Client<M>, started: real, initial: seq<M>, script: seq<Tick<M>>,
    rounds: nat, taken: Option<nat>, outcome: Outcome, rounds': nat, taken': Option<nat>, outcome': Outcome)
    requires Ends(client, started, initial, script, rounds, taken, outcome)
    requires Ends(client, started, initial, script, rounds', taken', outcome')
    ensures rounds' <= rounds
  {
    hide AfterScript, TickEnds;
    if rounds < rounds' {
      var a, tick := AfterScript(client, started, initial, script[..rounds]), script[rounds];
      assert TickPasses(client, started, a, tick);
      TickEndsOnce(client, started, a, tick, taken.value, outcome, |tick.ready|, Continue);
    }
  }

  lemma TickEndsOnce<M>(
    client: Client<M>, started: real, a: Account<M>, tick: Tick<M>, n: nat, outcome: Outcome, m: nat, other: Outcome)
    requires TickEnds(client, started, a, tick, n, outcome) && TickEnds(client, started, a, tick, m, other)
    ensures n == m && outcome == other
  {
    hide AfterEntries, AfterHead, HeadOutcome, EntryOutcome;
  }

  /** A watchdog, or the end of the process, ends the session exactly when it is the first to say
      so at the head of an iteration that everything before lets pass. */
  lemma HeadEndsExactly<M>(
    client: Client<M>, started: real, initial: seq<M>, script: seq<Tick<M>>,
    rounds: nat, taken: Option<nat>, outcome: Outcome, what: Outcome)
    requires Ends(client, started, initial, script, rounds, taken, outcome)
    requires what in {FirstOutputTimeout, Expired, Inactive, OutputSilence, Exited}
    ensures outcome == what <==>
      exists k :: 0 <= k < |script| && Reaches(client, started, initial, script, k)
        && HeadOutcome(client, started, AfterScript(client, started, initial, script[..k]), script[k]) == what
  {
    hide AfterScript, AfterHead, AfterEntries, HeadOutcome;
    if k :| 0 <= k < |script| && Reaches(client, started, initial, script, k)
          && HeadOutcome(client, started, AfterScript(client, started, initial, script[..k]), script[k]) == what {
      EndsOnce(client, started, initial, script, rounds, taken, outcome, k, Some(0), what);
    }
  }

  /** No activity in the script within the window before `now`. */
  ghost predicate InactiveBy<M>(client: Client<M>, started: real, initial: seq<M>, script: seq<Tick<M>>, now: real) {
    var window := client.settings.inactivity;
    && window.Some? && started + window.value <= now
    && forall t :: ActiveBy(client, started, initial, script, t) ==> t + window.value <= now
  }

  ghost predicate SilentBy<M>(client: Client<M>, started: real, script: seq<Tick<M>>, now: real) {
    var window := client.settings.silence;
    && window.Some? && started + window.value <= now
    && forall t :: OutputBy(script, t) ==> t + window.value <= now
  }

  ghost predicate OverdueBy<M>(client: Client<M>, started: real, script: seq<Tick<M>>, now: real) {
    var settings, messages := client.settings, DeliveredFrom(client.parse, ScriptBytes(script));
    if messages != [] && settings.refresh && settings.timeout.Some? then
      now >= ProgressBy(client.parse, started, script) + settings.timeout.value
    else if settings.startup.Some? then now >= started + settings.startup.value
    else settings.timeout.Some? && now >= started + settings.timeout.value
  }

  /** Which watchdog fires after some iterations, read off what the environment did in them. */
  lemma WatchdogExactly<M>(client: Client<M>, started: real, initial: seq<M>, script: seq<Tick<M>>, now: real)
    ensures var which := WatchdogAt(client, started, AfterScript(client, started, initial, script), now);
      var overdue, inactive, silent :=
        OverdueBy(client, started, script, now), InactiveBy(client, started, initial, script, now), SilentBy(client, started, script, now);
      && (which == FirstOutputTimeout <==>
            overdue && DeliveredFrom(client.parse, ScriptBytes(script)) == [] && client.settings.startup.Some?)
      && (which == Expired <==>
            overdue && (DeliveredFrom(client.parse, ScriptBytes(script)) != [] || client.settings.startup.None?))
      && (which == Inactive <==> !overdue && inactive)
      && (which == OutputSilence <==> !overdue && !inactive && silent)
      && (which == Continue <==> !overdue && !inactive && !silent)
  {
    hide AfterScript, ActiveBy, OutputBy, ProgressBy, ScriptBytes, DeliveredFrom, Quiet, InactiveBy, SilentBy;
    ScriptAccounts(client, started, initial, script);
    ProgressExactly(client, started, initial, script);
    QuietExactly(client, started, initial, script, now);
  }

  lemma QuietExactly<M>(client: Client<M>, started: real, initial: seq<M>, script: seq<Tick<M>>, now: real)
    ensures var a := AfterScript(client, started, initial, script);
      && (Quiet(started, a.activity, client.settings.inactivity, now) <==> InactiveBy(client, started, initial, script, now))
      && (Quiet(started, a.outputs, client.settings.silence, now) <==> SilentBy(client, started, script, now))
  {
    hide AfterScript, ActiveBy, OutputBy;
    var a := AfterScript(client, started, initial, script);
    forall t: real
      ensures t in a.activity <==> ActiveBy(client, started, initial, script, t)
    {
      ActivityExactly(client, started, initial, script, t);
    }
    forall t: real
      ensures t in a.outputs <==> OutputBy(script, t)
    {
      OutputsExactly(client, started, initial, script, t);
    }
  }

  /** What it means that a session ended so, for each way that a head of an iteration ends it. */
  ghost predicate Because<M>(
    client: Client<M>, started: real, initial: seq<M>, script: seq<Tick<M>>, rounds: nat, taken: Option<nat>, outcome: Outcome)
  {
    var settings, messages := client.settings, DeliveredFrom(client.parse, ScriptBytes(script[..if rounds < |script| then rounds else 0]));
    outcome in {FirstOutputTimeout, Expired, Inactive, OutputSilence, Exited} ==>
      && rounds < |script| && taken == Some(0)
      && var before, head := script[..rounds], script[rounds].head;
         && (script[rounds].alive <==> outcome != Exited)
         && (outcome == FirstOutputTimeout ==>
               messages == [] && settings.startup.Some? && head >= started + settings.startup.value)
         && (outcome == Expired ==>
               OverdueBy(client, started, before, head) && (settings.timeout.Some? || settings.startup.Some?))
         && (outcome == Inactive ==> InactiveBy(client, started, initial, before, head))
         && (outcome == OutputSilence ==> SilentBy(client, started, before, head))
         && (outcome == Exited ==>
               var a := AfterHead(client, AfterScript(client, started, initial, before), script[rounds]);
               Drained(a) || (a.exitAt.Some? && head - a.exitAt.value >= DRAIN))
  }

  lemma EndsBecause<M>(
    client: Client<M>, started: real, initial: seq<M>, script: seq<Tick<M>>, rounds: nat, taken: Option<nat>, outcome: Outcome)
    requires Ends(client, started, initial, script, rounds, taken, outcome)
    ensures Because(client, started, initial, script, rounds, taken, outcome)
  {
    hide AfterScript, AfterHead, AfterEntries, Reaches, EntriesPass, InactiveBy, SilentBy, ScriptBytes, DeliveredFrom, WatchdogAt;
    if rounds < |script| {
      WatchdogExactly(client, started, initial, script[..rounds], script[rounds].head);
    }
  }

  /** A session whose process is gone ends exactly when nothing is left to write or to read, or a
      second has passed since the process was first found gone. */
  lemma ExitsExactly<M>(client: Client<M>, started: real, initial: seq<M>, script: seq<Tick<M>>, tick: Tick<M>)
    requires !tick.alive
    ensures var a := AfterScript(client, started, initial, script);
      HeadOutcome(client, started, a, tick) == Exited <==>
        || ((a.waiting == None || |Encoded(client.encode, a.asked)| == a.written) && HungBy(script, true) && HungBy(script, false))
        || exists k :: 0 <= k < |script| && FirstGone(script, k) && tick.head >= script[k].head + 1.0
  {
    hide AfterScript, Encoded, HungBy, DeliveredFrom, CompletedBy;
    var a := AfterScript(client, started, initial, script);
    EncodedNone(client.encode);
    StreamsExactly(client, started, initial, script);
    ScriptConserves(client, started, initial, script);
    GoneSince(client, started, initial, script);
    if a.exitAt.Some? {
      SomeFirstGone(script);
    }
  }

  predicate FirstGone<M>(script: seq<Tick<M>>, k: nat) {
    k < |script| && !script[k].alive && forall i :: 0 <= i < k ==> script[i].alive
  }

  lemma {:induction false} SomeFirstGone<M>(script: seq<Tick<M>>)
    requires exists k :: 0 <= k < |script| && !script[k].alive
    ensures exists k :: FirstGone(script, k)
  {
    if k :| 0 <= k < |script| - 1 && !script[k].alive {
      assert Init(script)[k] == script[k];
      SomeFirstGone(Init(script));
      var i :| FirstGone(Init(script), i);
      assert FirstGone(script, i);
    } else {
      assert FirstGone(script, |script| - 1);
    }
  }
}
