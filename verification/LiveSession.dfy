/** The bidirectional JSONL transport (`managed_jsonl_session` in
    src/execraft/agents/live_session.py): the stdin queue, the framing of stdout and the
    watchdog deadlines, one loop iteration at a time against an arbitrary environment. */
module LiveSession {
  import opened Json
  import opened Text
  import opened LiveFraming
  import opened LiveAccounts
  import opened LiveStdin

  const POLL := 0.05
  const MIN_WAIT := 0.001

  function Sooner(a: real, deadline: Option<real>): real {
    if deadline.Some? && deadline.value < a then deadline.value else a
  }

  class Session<!M> {
    const client: Client<M>
    const started: real

    var buffer: Bytes
    var closed: bool
    var registered: bool
    var lines: Bytes
    var stdoutOpen: bool
    var stderrOpen: bool
    var deadline: Option<real>
    var inactivityDeadline: Option<real>
    var silenceDeadline: Option<real>
    var nextHeartbeat: Option<real>
    var lastOutput: real
    var lastActivity: real
    var protocolCompleted: bool
    var protocolStarted: bool
    var terminateRequested: bool
    var exitAt: Option<real>
    /** The messages the callback has been given. */
    var delivered: seq<M>

    /** History: messages asked to be sent, bytes accepted for stdin and written to it, bytes
        received from stdout, the complete lines processed, the times of output and activity, and
        that of the latest message. */
    ghost var asked: seq<M>
    ghost var accepted: Bytes
    ghost var written: Bytes
    ghost var received: Bytes
    ghost var done: seq<Bytes>
    ghost var outputs: seq<real>
    ghost var activity: seq<real>
    ghost var progress: real

    /** Nothing is written that was not accepted, and nothing accepted that was not asked for, in
        that order; until stdin is closed all that was asked for is written or in the buffer. */
    ghost predicate QueueValid()
      reads this`buffer, this`closed, this`accepted, this`written, this`asked
    {
      && written + buffer <= accepted <= Encoded(client.encode, asked)
      && (!closed ==> written + buffer == accepted == Encoded(client.encode, asked))
    }

    /** Stdin is waited for exactly while it is open and bytes wait for it: no lost wakeup. */
    ghost predicate Awake()
      reads this`closed, this`buffer, this`registered
    {
      registered <==> !closed && buffer != []
    }

    ghost predicate FramingValid()
      reads this`received, this`done, this`lines, this`delivered, this`protocolStarted, this`protocolCompleted
    {
      && Framing(client.parse, received, done, lines, delivered)
      && (protocolStarted <==> delivered != [])
      && protocolCompleted == CompletedBy(client.respond, delivered)
    }

    ghost predicate Framed()
      reads this`lines
    {
      NEWLINE !in lines && |lines| <= MAX_LINE
    }

    /** Each deadline is its last event plus its window. */
    ghost predicate ClocksValid(now: real)
      reads this`inactivityDeadline, this`silenceDeadline, this`lastOutput, this`lastActivity, this`outputs, this`activity,
            this`deadline, this`protocolStarted, this`progress
    {
      && inactivityDeadline == Later(lastActivity, client.settings.inactivity)
      && silenceDeadline == Later(lastOutput, client.settings.silence)
      && started <= lastOutput <= lastActivity <= now
      && (forall t :: t in outputs ==> t <= lastOutput)
      && (forall t :: t in activity ==> t <= lastActivity)
      && (lastOutput == started || lastOutput in outputs)
      && (lastActivity == started || lastActivity in activity)
      && deadline == DeadlineOf(client.settings, started, protocolStarted, progress)
      && started <= progress <= now
    }

    ghost predicate Valid(now: real)
      reads this
    {
      QueueValid() && Awake() && FramingValid() && Framed() && ClocksValid(now)
    }

    ghost function Waiting(): Option<nat>
      reads this`closed, this`buffer
    {
      if closed then None else Some(|buffer|)
    }

    ghost function View(): Account<M>
      reads this`received, this`asked, this`closed, this`buffer, this`written, this`outputs, this`activity, this`progress,
            this`nextHeartbeat, this`stdoutOpen, this`stderrOpen, this`exitAt
    {
      Account(received, asked, Waiting(), |written|, outputs, activity, progress, nextHeartbeat, stdoutOpen, stderrOpen, exitAt)
    }

    constructor (client: Client<M>, started: real, initial: seq<M>)
      ensures Valid(started) && this.client == client && this.started == started
      ensures View() == Opened(client, started, initial) && delivered == []
    {
      hide Split, Framing, Messages, Encoded, CompletedBy;
      EmptyFraming(client.parse);
      this.client, this.started := client, started;
      buffer, closed, lines := [], false, [];
      registered, stdoutOpen, stderrOpen := false, true, true;
      deadline := Later(started, if client.settings.startup.Some? then client.settings.startup else client.settings.timeout);
      inactivityDeadline := Later(started, client.settings.inactivity);
      silenceDeadline := Later(started, client.settings.silence);
      nextHeartbeat := Later(started, client.settings.heartbeat);
      lastOutput, lastActivity, progress := started, started, started;
      protocolCompleted, protocolStarted, terminateRequested, exitAt := false, false, false, None;
      asked, accepted, written, received, done, delivered, outputs, activity := [], [], [], [], [], [], [], [];
      NothingCompleted(client.respond);
      EncodedNone(client.encode);
      new;
      Prime(initial);
    }

    /** The initial messages wait before the loop begins. */
    method Prime(initial: seq<M>)
      requires QueueValid() && !closed && buffer == []
      modifies this`buffer, this`accepted, this`asked, this`registered
      ensures QueueValid() && Awake()
      ensures View() == old(View()).(asked := old(asked) + initial, waiting := Some(|Encoded(client.encode, initial)|))
    {
      hide QueueValid, Encoded;
      AppendMessages(initial);
      registered := buffer != [];
    }

    // ----- Stdin -----

    method AppendMessages(messages: seq<M>)
      requires QueueValid()
      modifies this`buffer, this`accepted, this`asked
      ensures QueueValid() && asked == old(asked) + messages
      ensures accepted == if closed then old(accepted) else old(accepted) + Encoded(client.encode, messages)
      ensures buffer == if closed then old(buffer) else old(buffer) + Encoded(client.encode, messages)
    {
      hide Encoded;
      EncodedAppend(client.encode, asked, messages);
      asked := asked + messages;
      if closed {
        return;
      }
      EncodedNone(client.encode);
      for i := 0 to |messages|
        invariant asked == old(asked) + messages && !closed
        invariant written + buffer == accepted == old(accepted) + Encoded(client.encode, messages[..i])
        invariant buffer == old(buffer) + Encoded(client.encode, messages[..i])
      {
        EncodedOne(client.encode, messages, i);
        var bytes := client.encode(messages[i]);
        assert written + (buffer + bytes) == written + buffer + bytes;
        buffer := buffer + bytes;
        accepted := accepted + bytes;
      }
      assert messages[..|messages|] == messages;
    }

    method CloseStdin()
      requires QueueValid() && Awake()
      modifies this`closed, this`buffer, this`registered
      ensures QueueValid() && Awake() && View() == old(View()).(waiting := None)
    {
      if closed {
        return;
      }
      assert written <= written + buffer;
      closed, buffer, registered := true, [], false;
      assert written + buffer == written;
    }

    method RegisterStdinIfNeeded(registers: bool)
      requires QueueValid() && (registered ==> !closed && buffer != [])
      modifies this`closed, this`registered
      ensures QueueValid() && Awake()
      ensures closed == (old(closed) || (buffer != [] && !old(registered) && !registers))
    {
      if closed || buffer == [] {
        return;
      }
      if !registered {
        if registers {
          registered := true;
        } else {
          closed := true;
        }
      }
    }

    /** Messages are appended and stdin is waited for if it has to be. */
    method Enqueue(messages: seq<M>, registers: bool)
      requires QueueValid() && Awake()
      modifies this`buffer, this`accepted, this`asked, this`closed, this`registered
      ensures QueueValid() && Awake() && asked == old(asked) + messages
      ensures accepted == if old(closed) then old(accepted) else old(accepted) + Encoded(client.encode, messages)
      ensures View() == old(View()).(
        asked := old(asked) + messages, waiting := Fed(old(Waiting()), |Encoded(client.encode, messages)|, registers))
    {
      hide QueueValid, Encoded;
      AppendMessages(messages);
      RegisterStdinIfNeeded(registers);
    }

    method ApplyUpdate(update: Update<M>, registers: bool)
      requires QueueValid() && Awake()
      modifies this`buffer, this`accepted, this`asked, this`closed, this`registered, this`protocolCompleted, this`terminateRequested
      ensures QueueValid() && Awake()
      ensures asked == old(asked) + update.outbound
      ensures accepted == if old(closed) then old(accepted) else old(accepted) + Encoded(client.encode, update.outbound)
      ensures protocolCompleted == (old(protocolCompleted) || update.completed)
      ensures View() == old(View()).(
        asked := old(asked) + update.outbound, waiting := AfterUpdate(client, old(Waiting()), update, registers))
      ensures terminateRequested ==
        (old(terminateRequested) || (update.completed && (update.terminate || client.settings.terminateOnComplete)))
    {
      hide QueueValid, Awake, Encoded, Fed, View;
      Enqueue(update.outbound, registers);
      if update.completed {
        protocolCompleted := true;
        if client.settings.closeOnComplete {
          CloseStdin();
        }
        if update.terminate || client.settings.terminateOnComplete {
          terminateRequested := true;
        }
      }
    }

    // ----- Stdout -----

    /** Process the complete lines held; false means an exception was raised. */
    method ProcessJsonLines(clock: real, registers: bool) returns (ok: bool)
      requires QueueValid() && Awake() && FramingValid() && ClocksValid(clock)
      modifies this`lines, this`done, this`delivered, this`protocolStarted, this`deadline, this`progress
      modifies this`buffer, this`accepted, this`asked, this`closed, this`registered, this`protocolCompleted, this`terminateRequested
      ensures QueueValid() && Awake() && FramingValid() && ClocksValid(clock)
      ensures old(delivered) <= delivered
      ensures View() == Heard(client, old(View()), clock, registers, delivered, |old(delivered)|)
      ensures if ok then Framed() else Unacceptable()
    {
      hide CompletedBy, QueueValid, Awake, FramingValid, ClocksValid, Heard;
      HeardNone(client, View(), clock, registers, delivered);
      while true
        invariant QueueValid() && Awake() && FramingValid() && ClocksValid(clock)
        invariant old(delivered) <= delivered
        invariant View() == Heard(client, old(View()), clock, registers, delivered, |old(delivered)|)
        decreases |lines|
      {
        var newline := Find(lines);
        if newline == |lines| {
          assert lines[..|lines|] == lines;
          return |lines| <= MAX_LINE;
        }
        ghost var earlier := delivered;
        ok := ProcessLine(newline, clock, registers);
        HeardThen(client, old(View()), clock, registers, earlier, delivered, |old(delivered)|);
        if !ok {
          return;
        }
      }
    }

    /** One complete line: a message in it is delivered. */
    method ProcessLine(newline: nat, clock: real, registers: bool) returns (ok: bool)
      requires newline < |lines| && lines[newline] == NEWLINE && NEWLINE !in lines[..newline]
      requires QueueValid() && Awake() && FramingValid() && ClocksValid(clock)
      modifies this`lines, this`done, this`delivered, this`protocolStarted, this`deadline, this`progress
      modifies this`buffer, this`accepted, this`asked, this`closed, this`registered, this`protocolCompleted, this`terminateRequested
      ensures QueueValid() && Awake() && FramingValid() && ClocksValid(clock)
      ensures old(delivered) <= delivered
      ensures View() == Heard(client, old(View()), clock, registers, delivered, |old(delivered)|)
      ensures if ok then |lines| < |old(lines)| else Unacceptable()
    {
      hide Framing, Split, Messages, QueueValid, ClocksValid, Awake, CompletedBy, Heard;
      HeardNone(client, View(), clock, registers, delivered);
      LineTaken(client.parse, received, done, lines, delivered, newline);
      var raw := lines[..newline];
      var parsed := client.parse(raw);
      assert NEWLINE in lines;
      if parsed.Invalid? {
        return false;
      }
      assert !parsed.Message? ==> delivered + InLine(parsed) == delivered;
      lines := lines[newline + 1..];
      done := done + [raw];
      if parsed.Message? {
        OneCompleted(client.respond, delivered, parsed.message);
        Deliver(parsed.message, clock, registers);
      }
      return true;
    }

    method NoteProgress(clock: real)
      requires ClocksValid(clock)
      modifies this`protocolStarted, this`deadline, this`progress
      ensures ClocksValid(clock) && protocolStarted && View() == old(View()).(progress := clock)
    {
      protocolStarted := true;
      progress := clock;
      if client.settings.refresh && client.settings.timeout.Some? {
        deadline := Later(clock, client.settings.timeout);
      }
    }

    method Deliver(message: M, clock: real, registers: bool)
      requires QueueValid() && Awake() && ClocksValid(clock)
      modifies this`delivered, this`protocolStarted, this`deadline, this`progress
      modifies this`buffer, this`accepted, this`asked, this`closed, this`registered, this`protocolCompleted, this`terminateRequested
      ensures QueueValid() && Awake() && ClocksValid(clock)
      ensures delivered == old(delivered) + [message] && protocolStarted
      ensures View() == Heard(client, old(View()), clock, registers, delivered, |old(delivered)|)
      ensures protocolCompleted == (old(protocolCompleted) || client.respond(delivered).completed)
    {
      hide QueueValid, Awake, ClocksValid, CompletedBy, Heard, AfterUpdate;
      HeardOne(client, View(), clock, registers, delivered, message);
      ghost var a := View();
      delivered := delivered + [message];
      NoteProgress(clock);
      assert View() == a.(progress := clock) && Waiting() == a.waiting && asked == a.asked;
      ApplyUpdate(client.respond(delivered), registers);
    }

    /** A line that is not JSON comes next, or the open line is too long. */
    ghost predicate Unacceptable()
      reads this`lines
    {
      if NEWLINE in lines then client.parse(Split(lines, NEWLINE)[0]).Invalid? else |lines| > MAX_LINE
    }

    // ----- One loop iteration -----

    method NoteActivity(clock: real)
      requires ClocksValid(clock)
      modifies this`lastActivity, this`inactivityDeadline, this`activity
      ensures ClocksValid(clock) && View() == old(View()).(activity := old(activity) + [clock]) && lastActivity == clock
    {
      hide DeadlineOf;
      lastActivity := clock;
      activity := activity + [clock];
      if client.settings.inactivity.Some? {
        inactivityDeadline := Later(clock, client.settings.inactivity);
      }
    }

    /** stdin is writable. An event from before it was unregistered finds nothing to write. */
    method OnWritable(write: Write, clock: real)
      requires Valid(clock)
      modifies this`buffer, this`closed, this`registered, this`written, this`lastActivity, this`inactivityDeadline, this`activity
      ensures Valid(clock)
      ensures View() == AfterEntry(client, old(View()), Stdin(write, clock), true)
      ensures written == old(written) + old(buffer)[..TakenFrom(old(Waiting()), write)]
    {
      hide Framing, FramingValid, Framed, ClocksValid, QueueValid;
      if !registered {
        return;
      }
      if write.Broken? {
        CloseStdin();
      } else if write.Wrote? {
        WriteBytes(Taken(write, |buffer|), clock);
      }
    }

    method WriteBytes(count: nat, clock: real)
      requires QueueValid() && Awake() && registered && ClocksValid(clock) && count <= |buffer|
      modifies this`written, this`buffer, this`registered
      modifies this`lastActivity, this`inactivityDeadline, this`activity
      ensures QueueValid() && Awake() && ClocksValid(clock)
      ensures written == old(written) + old(buffer)[..count] && buffer == old(buffer)[count..]
      ensures activity == if count == 0 then old(activity) else old(activity) + [clock]
    {
      hide ClocksValid, Encoded;
      assert written + buffer == written + buffer[..count] + buffer[count..];
      written := written + buffer[..count];
      buffer := buffer[count..];
      if count > 0 {
        NoteActivity(clock);
      }
      if buffer == [] {
        registered := false;
      }
    }

    /** stdout or stderr is readable. */
    method OnReadable(stdout: bool, read: Read, clock: real, classified: bool, registers: bool)
      returns (outcome: Outcome)
      requires Valid(clock)
      modifies this
      ensures outcome in {Continue, Classified, ProtocolError}
      ensures outcome == Classified <==> Speaks(Output(stdout, read, clock, classified)) && classified
      ensures outcome != ProtocolError ==> Valid(clock)
      ensures outcome == ProtocolError ==> QueueValid() && FramingValid() && Unacceptable()
      ensures View() == AfterEntry(client, old(View()), Output(stdout, read, clock, classified), registers)
      ensures written == old(written)
    {
      hide Framing, Split, Messages, CompletedBy, QueueValid, Awake, FramingValid, Framed, ClocksValid, Unacceptable,
           Heard, DeliveredFrom, Acceptable;
      if read.NotReady? {
        return Continue;
      }
      if read.EndOfFile? || read.bytes == [] {
        HangUp(stdout);
        return Continue;
      }
      outcome := OnChunk(stdout, read.bytes, clock, classified, registers);
    }

    /** A chunk that is not empty. */
    method OnChunk(stdout: bool, bytes: Bytes, clock: real, classified: bool, registers: bool) returns (outcome: Outcome)
      requires Valid(clock) && bytes != []
      modifies this
      ensures outcome in {Continue, Classified, ProtocolError}
      ensures outcome == Classified <==> classified
      ensures outcome != ProtocolError ==> Valid(clock)
      ensures outcome == ProtocolError ==> QueueValid() && FramingValid() && Unacceptable()
      ensures View() == AfterEntry(client, old(View()), Output(stdout, Chunk(bytes), clock, classified), registers)
      ensures written == old(written)
    {
      hide Framing, Split, Messages, CompletedBy, QueueValid, Awake, FramingValid, Framed, ClocksValid, Unacceptable,
           Heard, DeliveredFrom, Acceptable;
      ghost var a := View();
      assert a.outputs == outputs && a.activity == activity && a.received == received;
      hide View;
      outcome := Continue;
      NoteOutput(clock);
      if classified {
        return Classified;
      }
      if stdout {
        outcome := OnStdout(bytes, clock, registers);
      }
    }

    method HangUp(stdout: bool)
      modifies this`stdoutOpen, this`stderrOpen
      ensures View() == if stdout then old(View()).(stdoutOpen := false) else old(View()).(stderrOpen := false)
    {
      if stdout {
        stdoutOpen := false;
      } else {
        stderrOpen := false;
      }
    }

    method OnStdout(bytes: Bytes, clock: real, registers: bool) returns (outcome: Outcome)
      requires Valid(clock)
      modifies this`received, this`lines, this`done, this`delivered, this`protocolStarted, this`deadline, this`progress
      modifies this`buffer, this`accepted, this`asked, this`closed, this`registered, this`protocolCompleted, this`terminateRequested
      ensures outcome in {Continue, ProtocolError}
      ensures outcome == Continue ==> Valid(clock)
      ensures outcome == ProtocolError ==> QueueValid() && FramingValid() && Unacceptable()
      ensures View() == Heard(client, old(View().(received := received + bytes)), clock, registers,
        DeliveredFrom(client.parse, old(received) + bytes), |DeliveredFrom(client.parse, old(received))|)
    {
      hide CompletedBy, QueueValid, Awake, ClocksValid, Framing, Messages, Split, Heard, DeliveredFrom, Acceptable;
      Summary(Continue);
      ChunkFramed(client.parse, received, done, lines, delivered, bytes);
      received := received + bytes;
      lines := lines + bytes;
      var ok := ProcessJsonLines(clock, registers);
      outcome := if ok then Continue else ProtocolError;
      Summary(outcome);
    }

    method NoteOutput(clock: real)
      requires ClocksValid(clock)
      modifies this`lastOutput, this`silenceDeadline, this`outputs, this`lastActivity, this`inactivityDeadline, this`activity
      ensures ClocksValid(clock)
      ensures View() == old(View()).(outputs := old(outputs) + [clock], activity := old(activity) + [clock])
      ensures lastOutput == lastActivity == clock
    {
      hide Waiting, DeadlineOf;
      NoteActivity(clock);
      lastOutput := clock;
      outputs := outputs + [clock];
      if client.settings.silence.Some? {
        silenceDeadline := Later(clock, client.settings.silence);
      }
    }

    /** A watchdog is due exactly after a full quiet window. */
    lemma DueExactlyWhenQuiet(now: real, head: real)
      requires ClocksValid(now)
      ensures Due(inactivityDeadline, head) <==> Quiet(started, activity, client.settings.inactivity, head)
      ensures Due(silenceDeadline, head) <==> Quiet(started, outputs, client.settings.silence, head)
    {
    }

    method CheckWatchdogs(head: real) returns (outcome: Outcome)
      requires FramingValid() && Framed() && ClocksValid(head)
      ensures outcome == WatchdogAt(client, started, View(), head) && outcome !in {Classified, ProtocolError}
    {
      hide Framing, Split, Messages, DeliveredFrom, Acceptable, CompletedBy, Quiet;
      CompleteLines(client.parse, received, done, lines, delivered);
      DueExactlyWhenQuiet(head, head);
      if Due(deadline, head) {
        return if !protocolStarted && client.settings.startup.Some? then FirstOutputTimeout else Expired;
      }
      if Due(inactivityDeadline, head) {
        return Inactive;
      }
      if Due(silenceDeadline, head) {
        return OutputSilence;
      }
      return Continue;
    }

    /** The timeout given to `select`: between 1 and 50 ms, and never past a deadline by
        more than the minimum. */
    method SelectWait(now: real, alive: bool, clock: real) returns (wait: real)
      requires now <= clock
      ensures MIN_WAIT <= wait <= POLL
      ensures wait > MIN_WAIT && alive ==>
        !Due(deadline, clock) && !Due(inactivityDeadline, clock) && !Due(silenceDeadline, clock)
        && (deadline.Some? ==> clock + wait <= deadline.value)
        && (inactivityDeadline.Some? ==> clock + wait <= inactivityDeadline.value)
        && (silenceDeadline.Some? ==> clock + wait <= silenceDeadline.value)
    {
      var until := Sooner(now + POLL, nextHeartbeat);
      if alive {
        until := Sooner(Sooner(Sooner(until, deadline), inactivityDeadline), silenceDeadline);
      }
      wait := if until - clock > MIN_WAIT then until - clock else MIN_WAIT;
    }

    method Heartbeat(tick: Tick<M>)
      requires Valid(tick.tail)
      modifies this`nextHeartbeat, this`lastActivity, this`inactivityDeadline, this`activity
      ensures Valid(tick.tail)
      ensures View() == AfterBeat(client, old(View()), tick)
    {
      hide Framing, Split, Messages, Encoded, FramingValid, QueueValid, Framed, Awake, ClocksValid, Waiting;
      if Due(nextHeartbeat, tick.tail) {
        if tick.cpuActive {
          NoteActivity(tick.tail);
        }
        nextHeartbeat := Later(tick.tail, client.settings.heartbeat);
      }
    }

    /** Operator input, polled while the process lives and the protocol is open. */
    method PollInput(tick: Tick<M>)
      requires Valid(tick.head)
      modifies this`buffer, this`accepted, this`asked, this`closed, this`registered
      ensures Valid(tick.head)
      ensures var polled := Polled(client, old(View()), tick);
        && View() == old(View()).(
             asked := old(asked) + polled, waiting := Fed(old(Waiting()), |Encoded(client.encode, polled)|, tick.registers))
        && accepted == if old(closed) then old(accepted) else old(accepted) + Encoded(client.encode, polled)
    {
      hide Framing, Split, Messages, Encoded, QueueValid, FramingValid, Framed, ClocksValid, CompletedBy, DeliveredFrom, Acceptable;
      Summary(Continue);
      EncodedNone(client.encode);
      assert asked + [] == asked && accepted + [] == accepted;
      if client.settings.polls && tick.alive && !protocolCompleted {
        Enqueue(if tick.input.Some? then tick.input.value else [], tick.registers);
      }
    }

    lemma ValidLater(now: real, later: real)
      requires Valid(now) && now <= later
      ensures Valid(later)
    {
    }

    /** What a step leaves behind. */
    lemma Summary(outcome: Outcome)
      requires FramingValid() && (if outcome == ProtocolError then Unacceptable() else Framed())
      ensures delivered == DeliveredFrom(client.parse, received) && protocolCompleted == CompletedBy(client.respond, delivered)
      ensures outcome == ProtocolError <==> !Acceptable(client.parse, received)
    {
      hide DeliveredFrom, Acceptable, Framing, CompletedBy;
      CompleteLines(client.parse, received, done, lines, delivered);
    }

    /** One entry of what is ready. */
    method HandleEntry(entry: Ready, registers: bool) returns (outcome: Outcome)
      requires Valid(entry.clock)
      modifies this
      ensures QueueValid() && FramingValid() && (if outcome == ProtocolError then Unacceptable() else Valid(entry.clock))
      ensures View() == AfterEntry(client, old(View()), entry, registers)
      ensures outcome == EntryOutcome(client, old(View()), entry, registers)
    {
      hide Framing, Split, Messages, CompletedBy, ClocksValid, QueueValid, Framed, FramingValid, Awake, Unacceptable, Heard,
           DeliveredFrom, Acceptable;
      match entry {
        case Stdin(write, clock) =>
          OnWritable(write, clock);
          outcome := Continue;
        case Output(stdout, read, clock, classified) =>
          outcome := OnReadable(stdout, read, clock, classified, registers);
      }
      Summary(outcome);
    }

    /** All that is ready, entry by entry: `taken` of them, the last of which may end the session. */
    method HandleReady(tick: Tick<M>) returns (outcome: Outcome, ghost taken: nat)
      requires Valid(tick.select) && ClocksAscend(tick.select, tick.ready, tick.tail)
      modifies this
      ensures QueueValid() && FramingValid() && (if outcome == ProtocolError then Unacceptable() else Framed())
      ensures outcome == Continue ==> Valid(tick.tail) && taken == |tick.ready|
      ensures taken <= |tick.ready|
      ensures View() == AfterEntries(client, old(View()), tick.ready[..taken], tick.registers)
      ensures outcome == Continue ==> EntriesPass(client, old(View()), tick.ready, tick.registers, taken)
      ensures outcome != Continue ==>
        && 0 < taken && EntriesPass(client, old(View()), tick.ready, tick.registers, taken - 1)
        && outcome == EntryOutcome(client, AfterEntries(client, old(View()), tick.ready[..taken - 1], tick.registers),
                                   tick.ready[taken - 1], tick.registers)
    {
      hide Framing, Split, Messages, CompletedBy, ClocksValid, QueueValid, Framed, FramingValid, Awake, Unacceptable, AfterEntry,
           DeliveredFrom, EntryOutcome, View;
      ghost var clock := tick.select;
      assert tick.ready[..0] == [];
      for i := 0 to |tick.ready|
        invariant Valid(clock) && ClocksAscend(clock, tick.ready[i..], tick.tail)
        invariant View() == AfterEntries(client, old(View()), tick.ready[..i], tick.registers)
        invariant EntriesPass(client, old(View()), tick.ready, tick.registers, i)
      {
        var entry := tick.ready[i];
        assert tick.ready[i..][1..] == tick.ready[i + 1..] && tick.ready[i..][0] == entry;
        ValidLater(clock, entry.clock);
        clock := entry.clock;
        outcome := HandleEntry(entry, tick.registers);
        taken := i + 1;
        assert Init(tick.ready[..taken]) == tick.ready[..i] && Last(tick.ready[..taken]) == entry;
        if outcome != Continue {
          return;
        }
      }
      assert tick.ready[..|tick.ready|] == tick.ready;
      ValidLater(clock, tick.tail);
      return Continue, |tick.ready|;
    }

    method LoopHead(tick: Tick<M>) returns (outcome: Outcome)
      requires Valid(tick.head)
      modifies this`buffer, this`accepted, this`asked, this`closed, this`registered, this`terminateRequested, this`exitAt
      ensures Valid(tick.head)
      ensures View() == AfterHead(client, old(View()), tick)
      ensures outcome == HeadOutcome(client, started, old(View()), tick) && outcome !in {Classified, ProtocolError}
    {
      hide Framing, Split, Messages, Encoded, Quiet, QueueValid, FramingValid, Framed, ClocksValid, Polled, DeliveredFrom, Fed,
           Awake, WatchdogAt, Drained;
      ghost var before := View();
      PollInput(tick);
      if terminateRequested && tick.alive {
        terminateRequested := false;
      }
      if tick.alive {
        SameWatchdog(client, started, before, View(), tick.head);
        outcome := CheckWatchdogs(tick.head);
        return;
      }
      outcome := CheckExit(tick.head);
    }

    /** The process is gone: its streams are drained, but not for long. */
    method CheckExit(head: real) returns (outcome: Outcome)
      requires Awake()
      modifies this`exitAt
      ensures View() == old(View()).(exitAt := if old(exitAt).None? then Some(head) else old(exitAt))
      ensures exitAt.Some?
      ensures outcome == if Drained(View()) || head - exitAt.value >= DRAIN then Exited else Continue
    {
      if exitAt.None? {
        exitAt := Some(head);
      }
      var drained := !registered && !stdoutOpen && !stderrOpen;
      return if drained || head - exitAt.value >= DRAIN then Exited else Continue;
    }

    /** One iteration: its head, the wait, what is ready after it, and the heartbeat. */
    method Iterate(tick: Tick<M>) returns (outcome: Outcome, ghost taken: nat)
      requires Valid(tick.head) && tick.head <= tick.select && ClocksAscend(tick.select, tick.ready, tick.tail)
      modifies this
      ensures QueueValid() && FramingValid() && (if outcome == ProtocolError then Unacceptable() else Framed())
      ensures outcome == Continue ==> Valid(tick.tail)
      ensures TickEnds(client, started, old(View()), tick, taken, outcome) && taken <= |tick.ready|
      ensures View() ==
        if outcome == Continue then AfterTick(client, old(View()), tick)
        else AfterEntries(client, AfterHead(client, old(View()), tick), tick.ready[..taken], tick.registers)
    {
      hide Framing, Split, Messages, CompletedBy, QueueValid, Awake, FramingValid, Framed, ClocksValid,
           Unacceptable, View, AfterHead, AfterEntries, AfterBeat, HeadOutcome, EntryOutcome, EntriesPass;
      ghost var before := View();
      outcome := LoopHead(tick);
      taken := 0;
      assert tick.ready[..0] == [];
      NoEntries(client, View(), tick.registers);
      if outcome == Continue {
        var wait := SelectWait(tick.head, tick.alive, tick.select);
        ValidLater(tick.head, tick.select);
        outcome, taken := HandleReady(tick);
        assert tick.ready[..|tick.ready|] == tick.ready;
        if outcome == Continue {
          Heartbeat(tick);
        }
      }
    }

    /** The loop, until an iteration stops it or the script ends. */
    method Follow(initial: seq<M>, script: seq<Tick<M>>)
      returns (outcome: Outcome, ghost rounds: nat, ghost taken: Option<nat>)
      requires Valid(started) && ScriptAscends(started, script) && View() == Opened(client, started, initial)
      modifies this
      ensures QueueValid() && FramingValid() && (if outcome == ProtocolError then Unacceptable() else Framed())
      ensures Ends(client, started, initial, script, rounds, taken, outcome)
      ensures View() == AccountAt(client, started, initial, script, rounds, taken)
    {
      hide Framing, Split, Messages, CompletedBy, QueueValid, Awake, FramingValid, Framed, ClocksValid,
           Unacceptable, View, AfterHead, AfterTick, AfterEntries, TickEnds, Opened;
      ghost var now := started;
      outcome, rounds, taken := Continue, 0, None;
      var i := 0;
      while i < |script|
        invariant 0 <= i <= |script| && rounds == i && taken == None && outcome == Continue
        invariant Valid(now) && ScriptAscends(now, script[i..])
        invariant Reaches(client, started, initial, script, i)
        invariant View() == AfterScript(client, started, initial, script[..i])
        decreases |script| - i
      {
        assert script[i..][0] == script[i] && script[i..][1..] == script[i + 1..];
        ghost var n;
        ValidLater(now, script[i].head);
        outcome, n := Iterate(script[i]);
        if outcome != Continue {
          taken := Some(n);
          return;
        }
        assert Init(script[..i + 1]) == script[..i] && Last(script[..i + 1]) == script[i];
        Passed(client, started, AfterScript(client, started, initial, script[..i]), script[i], n);
        now := script[i].tail;
        i := i + 1;
        rounds := i;
      }
      assert script[..|script|] == script;
    }
  }

  /** The clock never runs backwards. */
  ghost predicate ClocksAscend(from: real, ready: seq<Ready>, tail: real)
    decreases |ready|
  {
    if ready == [] then from <= tail
    else from <= ready[0].clock && ClocksAscend(ready[0].clock, ready[1..], tail)
  }

  ghost predicate ScriptAscends<M>(from: real, script: seq<Tick<M>>)
    decreases |script|
  {
    script == [] ||
    (&& from <= script[0].head <= script[0].select
     && ClocksAscend(script[0].select, script[0].ready, script[0].tail)
     && ScriptAscends(script[0].tail, script[1..]))
  }

  /** A whole session against any environment. It ends where the first iteration is that something
      stops, and nowhere else; by then the callback has seen exactly the messages that were
      received, and stdin got a prefix of the initial messages, the polled inputs and the replies,
      as many bytes as the account says, and is closed exactly if that says so. */
  method Run<M(!new)>(client: Client<M>, started: real, initial: seq<M>, script: seq<Tick<M>>)
    returns (outcome: Outcome, delivered: seq<M>, closed: bool, ghost rounds: nat, ghost taken: Option<nat>,
             ghost accepted: Bytes, ghost written: Bytes)
    requires ScriptAscends(started, script)
    ensures Ends(client, started, initial, script, rounds, taken, outcome)
    ensures Because(client, started, initial, script, rounds, taken, outcome)
    ensures var account := AccountAt(client, started, initial, script, rounds, taken);
      && Accounted(client, initial, script, rounds, taken, account.received, account.asked)
      && delivered == DeliveredFrom(client.parse, account.received)
      && (outcome == ProtocolError <==> !Acceptable(client.parse, account.received))
      && |written| == account.written && written <= accepted <= Encoded(client.encode, account.asked)
      && (closed <==> account.waiting == None)
      && (closed <==>
            || (client.settings.closeOnComplete && CompletedBy(client.respond, delivered))
            || Lost(client, started, initial, script, rounds, taken))
      && (!closed ==> accepted == Encoded(client.encode, account.asked) && |accepted| == account.written + account.waiting.value)
  {
    hide Split, Messages, Framing, DeliveredFrom, Acceptable, CompletedBy, Encoded, AccountAt, Opened, Accounted, Reaches, TickEnds,
         AfterScript, Because, Lost;
    var session := new Session<M>(client, started, initial);
    outcome, rounds, taken := session.Follow(initial, script);
    session.Summary(outcome);
    AccountAccounts(client, started, initial, script, rounds, taken);
    EndsBecause(client, started, initial, script, rounds, taken, outcome);
    ClosedExactly(client, started, initial, script, rounds, taken);
    delivered, closed, accepted, written := session.delivered, session.closed, session.accepted, session.written;
    assert written <= written + session.buffer;
  }
}
