/** When the stdin of a live session is closed, and what is written to it, over the script of the
    environment (src/execraft/agents/live_session.py). */
module LiveStdin {
  import opened Json
  import opened Text
  import opened LiveFraming
  import opened LiveAccounts

  /** Bytes that have been asked for and not been written. */
  function Unsent<M>(client: Client<M>, a: Account<M>): int {
    |Encoded(client.encode, a.asked)| - a.written
  }

  // ----- Completion -----

  /** The answer to one of the messages from `from` on completes the protocol. */
  ghost predicate CompletesAfter<M>(respond: seq<M> -> Update<M>, messages: seq<M>, from: nat) {
    exists m :: from < m <= |messages| && respond(messages[..m]).completed
  }

  lemma CompletesOn<M>(respond: seq<M> -> Update<M>, messages: seq<M>, from: nat)
    requires |messages| > from
    ensures CompletesAfter(respond, messages, from) <==> CompletesAfter(respond, Init(messages), from) || respond(messages).completed
  {
    assert messages[..|messages|] == messages;
    assert forall m :: 0 <= m < |messages| ==> Init(messages)[..m] == messages[..m];
  }

  /** The protocol is completed exactly when some answer has said so. */
  lemma {:induction false} CompletedExactly<M>(respond: seq<M> -> Update<M>, messages: seq<M>)
    ensures CompletedBy(respond, messages) <==> CompletesAfter(respond, messages, 0)
  {
    if messages != [] {
      CompletedExactly(respond, Init(messages));
      CompletesOn(respond, messages, 0);
    }
  }

  lemma {:induction false} CompletedMore<M>(respond: seq<M> -> Update<M>, earlier: seq<M>, messages: seq<M>)
    requires earlier <= messages
    ensures CompletedBy(respond, messages) <==> CompletedBy(respond, earlier) || CompletesAfter(respond, messages, |earlier|)
  {
    if |earlier| == |messages| {
      assert earlier == messages;
    } else {
      CompletedMore(respond, earlier, Init(messages));
      CompletesOn(respond, messages, |earlier|);
    }
  }

  // ----- What loses stdin -----

  /** A write fails although bytes wait. */
  predicate Breaks<M>(client: Client<M>, a: Account<M>, entry: Ready) {
    entry.Stdin? && entry.write.Broken? && Unsent(client, a) > 0
  }

  /** The reply to one of the messages from `from` on finds stdin idle, and it is not registered again. */
  ghost predicate RefusedAfter<M>(client: Client<M>, a: Account<M>, messages: seq<M>, from: nat) {
    exists m :: from < m <= |messages|
      && |Encoded(client.encode, a.asked + Replies(client.respond, messages[..m - 1], from))| == a.written
      && |Encoded(client.encode, client.respond(messages[..m]).outbound)| > 0
  }

  /** The same for the replies to what an entry delivers. */
  ghost predicate RefusesReply<M>(client: Client<M>, a: Account<M>, entry: Ready, registers: bool) {
    && !registers && entry.Output? && entry.stdout && entry.read.Chunk? && !entry.classified
    && RefusedAfter(client, a, DeliveredFrom(client.parse, a.received + entry.read.bytes), |DeliveredFrom(client.parse, a.received)|)
  }

  /** And for the operator's input. */
  predicate RefusesInput<M>(client: Client<M>, a: Account<M>, tick: Tick<M>) {
    && !tick.registers && Unsent(client, a) == 0 && client.settings.polls && tick.alive && tick.input.Some?
    && !CompletedBy(client.respond, DeliveredFrom(client.parse, a.received))
    && |Encoded(client.encode, tick.input.value)| > 0
  }

  lemma RefusedOn<M>(client: Client<M>, a: Account<M>, messages: seq<M>, from: nat)
    requires |messages| > from
    ensures RefusedAfter(client, a, messages, from) <==>
      || RefusedAfter(client, a, Init(messages), from)
      || (|Encoded(client.encode, a.asked + Replies(client.respond, Init(messages), from))| == a.written
          && |Encoded(client.encode, client.respond(messages).outbound)| > 0)
  {
    hide Encoded, Replies;
    assert messages[..|messages|] == messages && messages[..|messages| - 1] == Init(messages);
    assert forall m :: 0 <= m < |messages| ==> Init(messages)[..m] == messages[..m];
  }

  lemma {:induction false} HearingCloses<M>(
    client: Client<M>, a: Account<M>, clock: real, registers: bool, messages: seq<M>, from: nat)
    requires Conserved(client, a)
    ensures Heard(client, a, clock, registers, messages, from).waiting == None <==>
      || a.waiting == None
      || (client.settings.closeOnComplete && CompletesAfter(client.respond, messages, from))
      || (!registers && RefusedAfter(client, a, messages, from))
  {
    if |messages| > from {
      hide Encoded, Replies, CompletesAfter, RefusedAfter;
      HearingCloses(client, a, clock, registers, Init(messages), from);
      CompletesOn(client.respond, messages, from);
      RefusedOn(client, a, messages, from);
      HearingConserves(client, a, clock, registers, Init(messages), from);
      HeardAsks(client, a, clock, registers, Init(messages), from);
    }
  }

  predicate Done<M>(client: Client<M>, a: Account<M>) {
    client.settings.closeOnComplete && CompletedBy(client.respond, DeliveredFrom(client.parse, a.received))
  }

  ghost predicate LosesAt<M>(client: Client<M>, a: Account<M>, entry: Ready, registers: bool) {
    Breaks(client, a, entry) || RefusesReply(client, a, entry, registers)
  }

  lemma EntryCloses<M>(client: Client<M>, a: Account<M>, entry: Ready, registers: bool)
    requires Conserved(client, a) && (Done(client, a) ==> a.waiting == None)
    ensures var b := AfterEntry(client, a, entry, registers);
      && Conserved(client, b)
      && (b.waiting == None <==> a.waiting == None || Done(client, b) || LosesAt(client, a, entry, registers))
  {
    hide Encoded, Heard, DeliveredFrom, Replies, CompletedBy, CompletesAfter, RefusedAfter;
    AfterEntryConserves(client, a, entry, registers);
    if entry.Output? && entry.read.Chunk? {
      var received := a.received + entry.read.bytes;
      var before, after := DeliveredFrom(client.parse, a.received), DeliveredFrom(client.parse, received);
      DeliveredGrows(client.parse, a.received, entry.read.bytes);
      CompletedMore(client.respond, before, after);
      assert entry.read.bytes == [] ==> received == a.received;
      NothingRefused(client, a, before);
      if Speaks(entry) && entry.stdout && !entry.classified {
        var b := a.(outputs := a.outputs + [entry.clock], activity := a.activity + [entry.clock], received := received);
        HearingCloses(client, b, entry.clock, registers, after, |before|);
        HeardAsks(client, b, entry.clock, registers, after, |before|);
        SameRefused(client, a, b, after, |before|);
      }
    }
  }

  lemma NothingRefused<M>(client: Client<M>, a: Account<M>, messages: seq<M>)
    ensures !RefusedAfter(client, a, messages, |messages|)
  {
  }

  lemma SameRefused<M>(client: Client<M>, a: Account<M>, b: Account<M>, messages: seq<M>, from: nat)
    requires a.asked == b.asked && a.written == b.written
    ensures RefusedAfter(client, a, messages, from) <==> RefusedAfter(client, b, messages, from)
  {
  }

  lemma AfterEntryConserves<M>(client: Client<M>, a: Account<M>, entry: Ready, registers: bool)
    requires Conserved(client, a)
    ensures Conserved(client, AfterEntry(client, a, entry, registers))
  {
    EntriesConserve(client, a, [entry], registers);
    assert Init([entry]) == [] && Last([entry]) == entry;
    NoEntries(client, a, registers);
  }

  ghost predicate LosesAmong<M>(client: Client<M>, a: Account<M>, ready: seq<Ready>, registers: bool) {
    exists j :: 0 <= j < |ready| && LosesAt(client, AfterEntries(client, a, ready[..j], registers), ready[j], registers)
  }

  lemma LosesOn<M>(client: Client<M>, a: Account<M>, ready: seq<Ready>, registers: bool)
    requires ready != []
    ensures LosesAmong(client, a, ready, registers) <==>
      || LosesAmong(client, a, Init(ready), registers)
      || LosesAt(client, AfterEntries(client, a, Init(ready), registers), Last(ready), registers)
  {
    hide LosesAt, AfterEntries;
    assert ready[..|ready| - 1] == Init(ready);
    assert forall j :: 0 <= j < |ready| - 1 ==> Init(ready)[j] == ready[j] && Init(ready)[..j] == ready[..j];
  }

  lemma DoneStays<M>(client: Client<M>, a: Account<M>, b: Account<M>, bytes: Bytes)
    requires b.received == a.received + bytes && Done(client, a)
    ensures Done(client, b)
  {
    hide DeliveredFrom, CompletedBy;
    DeliveredGrows(client.parse, a.received, bytes);
    CompletedMore(client.respond, DeliveredFrom(client.parse, a.received), DeliveredFrom(client.parse, b.received));
  }

  lemma {:induction false} EntriesClose<M>(client: Client<M>, a: Account<M>, ready: seq<Ready>, registers: bool)
    requires Conserved(client, a) && (Done(client, a) ==> a.waiting == None)
    ensures var b := AfterEntries(client, a, ready, registers);
      && Conserved(client, b)
      && (b.waiting == None <==> a.waiting == None || Done(client, b) || LosesAmong(client, a, ready, registers))
  {
    hide Conserved, Done, LosesAt, LosesAmong, AfterEntry, Extended;
    if ready == [] {
      NothingLost(client, a, registers);
    } else {
      var b := AfterEntries(client, a, Init(ready), registers);
      EntriesClose(client, a, Init(ready), registers);
      EntryCloses(client, b, Last(ready), registers);
      LosesOn(client, a, ready, registers);
      EntryAccounts(client, b, Last(ready), registers);
      ReceivedMore(client, b, AfterEntry(client, b, Last(ready), registers), StdoutBytes([Last(ready)]));
    }
  }

  lemma ReceivedMore<M>(client: Client<M>, a: Account<M>, b: Account<M>, bytes: Bytes)
    requires Extended(client, a, b, bytes)
    ensures Done(client, a) ==> Done(client, b)
  {
    hide Done;
    if Done(client, a) {
      DoneStays(client, a, b, bytes);
    }
  }

  lemma NothingLost<M>(client: Client<M>, a: Account<M>, registers: bool)
    ensures !LosesAmong(client, a, [], registers)
  {
  }

  /** An iteration that finds `a` loses stdin at its head or in one of its first `n` entries. */
  ghost predicate LosesDuring<M>(client: Client<M>, a: Account<M>, tick: Tick<M>, n: nat)
    requires n <= |tick.ready|
  {
    RefusesInput(client, a, tick) || LosesAmong(client, AfterHead(client, a, tick), tick.ready[..n], tick.registers)
  }

  lemma HeadCloses<M>(client: Client<M>, a: Account<M>, tick: Tick<M>)
    requires Conserved(client, a)
    ensures var b := AfterHead(client, a, tick);
      && Conserved(client, b) && (Done(client, b) <==> Done(client, a))
      && (b.waiting == None <==> a.waiting == None || RefusesInput(client, a, tick))
  {
    hide DeliveredFrom, CompletedBy, Encoded;
    EncodedNone(client.encode);
    FeedingConserves(client, a, Polled(client, a, tick), tick.registers);
  }

  lemma TickCloses<M>(client: Client<M>, a: Account<M>, tick: Tick<M>, n: nat)
    requires Conserved(client, a) && (Done(client, a) ==> a.waiting == None) && n <= |tick.ready|
    ensures var b := AfterEntries(client, AfterHead(client, a, tick), tick.ready[..n], tick.registers);
      && Conserved(client, b)
      && (b.waiting == None <==> a.waiting == None || Done(client, b) || LosesDuring(client, a, tick, n))
  {
    hide Conserved, Done, LosesAmong, RefusesInput, AfterHead, AfterEntries;
    HeadCloses(client, a, tick);
    EntriesClose(client, AfterHead(client, a, tick), tick.ready[..n], tick.registers);
  }

  /** One of the iterations of the script loses stdin. */
  ghost predicate LosesBy<M>(client: Client<M>, started: real, initial: seq<M>, script: seq<Tick<M>>) {
    exists k :: 0 <= k < |script|
      && LosesDuring(client, AfterScript(client, started, initial, script[..k]), script[k], |script[k].ready|)
  }

  lemma LosesByOn<M>(client: Client<M>, started: real, initial: seq<M>, script: seq<Tick<M>>)
    requires script != []
    ensures LosesBy(client, started, initial, script) <==>
      || LosesBy(client, started, initial, Init(script))
      || LosesDuring(client, AfterScript(client, started, initial, Init(script)), Last(script), |Last(script).ready|)
  {
    hide LosesDuring, AfterScript;
    assert script[..|script| - 1] == Init(script);
    assert forall k :: 0 <= k < |script| - 1 ==> Init(script)[k] == script[k] && Init(script)[..k] == script[..k];
  }

  lemma {:induction false} ScriptCloses<M>(client: Client<M>, started: real, initial: seq<M>, script: seq<Tick<M>>)
    ensures var a := AfterScript(client, started, initial, script);
      && Conserved(client, a)
      && (a.waiting == None <==> Done(client, a) || LosesBy(client, started, initial, script))
  {
    if script == [] {
      hide Encoded;
      NothingYet(client, started, initial);
    } else {
      hide Conserved, Done, LosesBy, LosesDuring, AfterHead, AfterEntries;
      var a, tick := AfterScript(client, started, initial, Init(script)), Last(script);
      ScriptCloses(client, started, initial, Init(script));
      TickCloses(client, a, tick, |tick.ready|);
      LosesByOn(client, started, initial, script);
      assert tick.ready[..|tick.ready|] == tick.ready;
      BeatKeeps(client, AfterEntries(client, AfterHead(client, a, tick), tick.ready, tick.registers), tick);
      ReceivedWithin(client, a, tick, |tick.ready|);
    }
  }

  lemma BeatKeeps<M>(client: Client<M>, a: Account<M>, tick: Tick<M>)
    ensures var b := AfterBeat(client, a, tick);
      b.waiting == a.waiting && (Done(client, b) <==> Done(client, a)) && (Conserved(client, b) <==> Conserved(client, a))
  {
  }

  lemma NothingYet<M>(client: Client<M>, started: real, initial: seq<M>)
    ensures !Done(client, Opened(client, started, initial)) && !LosesBy(client, started, initial, [])
  {
  }

  /** After some whole iterations and a part of the next. */
  ghost predicate Lost<M>(
    client: Client<M>, started: real, initial: seq<M>, script: seq<Tick<M>>, rounds: nat, taken: Option<nat>)
    requires rounds <= |script|
    requires taken.Some? ==> rounds < |script| && taken.value <= |script[rounds].ready|
  {
    || LosesBy(client, started, initial, script[..rounds])
    || (taken.Some? && LosesDuring(client, AfterScript(client, started, initial, script[..rounds]), script[rounds], taken.value))
  }

  /** Stdin is closed exactly when the completed protocol closes it, a write broke with bytes
      waiting, or stdin was refused registration while idle. */
  lemma ClosedExactly<M>(
    client: Client<M>, started: real, initial: seq<M>, script: seq<Tick<M>>, rounds: nat, taken: Option<nat>)
    requires rounds <= |script|
    requires taken.Some? ==> rounds < |script| && taken.value <= |script[rounds].ready|
    ensures var a := AccountAt(client, started, initial, script, rounds, taken);
      a.waiting == None <==>
        || (client.settings.closeOnComplete && CompletedBy(client.respond, DeliveredFrom(client.parse, a.received)))
        || Lost(client, started, initial, script, rounds, taken)
  {
    var before := AfterScript(client, started, initial, script[..rounds]);
    ScriptCloses(client, started, initial, script[..rounds]);
    if taken.Some? {
      hide Conserved, LosesBy, LosesDuring, AfterHead, AfterEntries, AfterScript, CompletedBy, DeliveredFrom;
      var tick := script[rounds];
      TickCloses(client, before, tick, taken.value);
      ReceivedWithin(client, before, tick, taken.value);
    }
  }

  lemma ReceivedWithin<M>(client: Client<M>, a: Account<M>, tick: Tick<M>, n: nat)
    requires n <= |tick.ready|
    ensures Done(client, a) ==> Done(client, AfterEntries(client, AfterHead(client, a, tick), tick.ready[..n], tick.registers))
  {
    hide Done, AfterEntries, Fed, Encoded, Polled;
    EntriesAccount(client, AfterHead(client, a, tick), tick.ready[..n], tick.registers);
    if Done(client, a) {
      DoneStays(client, a, AfterEntries(client, AfterHead(client, a, tick), tick.ready[..n], tick.registers),
                StdoutBytes(tick.ready[..n]));
    }
  }

  /** A write takes what the environment allows of what has been asked for and not been written,
      and once stdin is closed nothing. */
  lemma WritesExactly<M>(client: Client<M>, a: Account<M>, entry: Ready, registers: bool)
    requires Conserved(client, a)
    ensures var n := AfterEntry(client, a, entry, registers).written - a.written;
      if entry.Stdin? && entry.write.Wrote? && a.waiting != None then
        n == if entry.write.count < Unsent(client, a) then entry.write.count else Unsent(client, a)
      else n == 0
  {
    hide Encoded, Heard, DeliveredFrom, Replies;
    if entry.Output? && entry.read.Chunk? && Speaks(entry) && entry.stdout && !entry.classified {
      var received := a.received + entry.read.bytes;
      var b := a.(outputs := a.outputs + [entry.clock], activity := a.activity + [entry.clock], received := received);
      HeardAsks(client, b, entry.clock, registers, DeliveredFrom(client.parse, received), |DeliveredFrom(client.parse, a.received)|);
    }
  }
}
