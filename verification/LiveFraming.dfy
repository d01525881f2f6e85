/** The framing of a JSONL stream (src/execraft/agents/live_session.py): which messages the bytes
    received so far hold, however they are cut into chunks and taken line by line. */
module LiveFraming {
  import opened Json
  import opened Text

  type Bytes = seq<bv8>

  const NEWLINE: bv8 := 10
  const MAX_LINE: nat := 16 * 1024 * 1024

  /** What `json.loads` makes of one line of stdout. */
  datatype Parsed<+M> = Blank | Invalid | NotAnObject | Message(message: M)

  function Messages<M>(parse: Bytes -> Parsed<M>, lines: seq<Bytes>): seq<M> {
    if lines == [] then []
    else
      Messages(parse, Init(lines)) + InLine(parse(Last(lines)))
  }

  function Find(s: Bytes): (i: nat)
    ensures i <= |s| && NEWLINE !in s[..i] && (i < |s| ==> s[i] == NEWLINE)
  {
    if s == [] || s[0] == NEWLINE then 0
    else
      assert forall k :: 1 <= k <= |s| ==> s[..k] == [s[0]] + s[1..][..k - 1];
      1 + Find(s[1..])
  }

  lemma {:induction false} FirstLine(s: Bytes, i: nat)
    requires i < |s| && NEWLINE !in s[..i] && s[i] == NEWLINE
    ensures Split(s, NEWLINE) == [s[..i]] + Split(s[i + 1..], NEWLINE)
  {
    if i > 0 {
      assert s[..i] == [s[0]] + s[1..][..i - 1];
      FirstLine(s[1..], i - 1);
      assert s[1..][i..] == s[i + 1..];
    }
  }

  lemma SplitChunk(done: seq<Bytes>, received: Bytes, held: Bytes, chunk: Bytes)
    requires Split(received, NEWLINE) == done + Split(held, NEWLINE)
    ensures Split(received + chunk, NEWLINE) == done + Split(held + chunk, NEWLINE)
  {
    SplitAppend(received, chunk, NEWLINE);
    SplitAppend(held, chunk, NEWLINE);
    SeamAfterAll(done, Split(held, NEWLINE), Split(chunk, NEWLINE));
  }

  /** The lines up to the first that is not JSON. */
  function Readable<M>(parse: Bytes -> Parsed<M>, lines: seq<Bytes>): seq<Bytes> {
    if lines == [] || parse(lines[0]).Invalid? then [] else [lines[0]] + Readable(parse, lines[1..])
  }

  lemma {:induction false} ReadableAppend<M>(parse: Bytes -> Parsed<M>, done: seq<Bytes>, rest: seq<Bytes>)
    requires forall line :: line in done ==> !parse(line).Invalid?
    ensures Readable(parse, done + rest) == done + Readable(parse, rest)
  {
    if done == [] {
      assert done + rest == rest;
    } else {
      assert (done + rest)[1..] == done[1..] + rest && done[0] in done;
      ReadableAppend(parse, done[1..], rest);
    }
  }

  /** The messages a stream holds: those in its complete lines, up to the first that is not JSON. */
  function DeliveredFrom<M>(parse: Bytes -> Parsed<M>, received: Bytes): seq<M> {
    Messages(parse, Readable(parse, Init(Split(received, NEWLINE))))
  }

  /** All complete lines are JSON and the open one is not too long. */
  ghost predicate Acceptable<M>(parse: Bytes -> Parsed<M>, received: Bytes) {
    && (forall line :: line in Init(Split(received, NEWLINE)) ==> !parse(line).Invalid?)
    && |Last(Split(received, NEWLINE))| <= MAX_LINE
  }

  /** The complete lines of what was received are those processed and those still held;
      the messages in the former, and only those, have been delivered. */
  ghost predicate Framing<M>(
    parse: Bytes -> Parsed<M>, received: Bytes, done: seq<Bytes>, held: Bytes, delivered: seq<M>)
  {
    && Split(received, NEWLINE) == done + Split(held, NEWLINE)
    && delivered == Messages(parse, done)
    && forall line :: line in done ==> !parse(line).Invalid?
  }

  lemma EmptyFraming<M>(parse: Bytes -> Parsed<M>)
    ensures Framing(parse, [], [], [], [])
  {
  }

  function InLine<M>(parsed: Parsed<M>): seq<M> {
    match parsed case Message(m) => [m] case _ => []
  }

  lemma MessagesOn<M>(parse: Bytes -> Parsed<M>, lines: seq<Bytes>, line: Bytes)
    ensures Messages(parse, lines + [line]) == Messages(parse, lines) + InLine(parse(line))
  {
  }

  lemma Reassociate<T>(a: seq<T>, b: T, c: seq<T>)
    ensures a + ([b] + c) == a + [b] + c
  {
  }

  lemma LineTaken<M>(
    parse: Bytes -> Parsed<M>, received: Bytes, done: seq<Bytes>, held: Bytes, delivered: seq<M>, newline: nat)
    requires Framing(parse, received, done, held, delivered)
    requires newline < |held| && held[newline] == NEWLINE && NEWLINE !in held[..newline]
    ensures Split(held, NEWLINE)[0] == held[..newline]
    ensures !parse(held[..newline]).Invalid? ==>
      Framing(parse, received, done + [held[..newline]], held[newline + 1..], delivered + InLine(parse(held[..newline])))
  {
    var raw := held[..newline];
    FirstLine(held, newline);
    MessagesOn(parse, done, raw);
    Reassociate(done, raw, Split(held[newline + 1..], NEWLINE));
  }

  lemma ChunkFramed<M>(
    parse: Bytes -> Parsed<M>, received: Bytes, done: seq<Bytes>, held: Bytes, delivered: seq<M>, chunk: Bytes)
    requires Framing(parse, received, done, held, delivered)
    ensures Framing(parse, received + chunk, done, held + chunk, delivered)
  {
    SplitChunk(done, received, held, chunk);
  }

  /** What was delivered is fixed by what was received, once the complete lines are processed
      up to one that is not JSON. */
  lemma CompleteLines<M>(
    parse: Bytes -> Parsed<M>, received: Bytes, done: seq<Bytes>, held: Bytes, delivered: seq<M>)
    requires Framing(parse, received, done, held, delivered)
    requires NEWLINE !in held || parse(Split(held, NEWLINE)[0]).Invalid?
    ensures delivered == DeliveredFrom(parse, received)
    ensures Acceptable(parse, received) <==> NEWLINE !in held && |held| <= MAX_LINE
  {
    if NEWLINE !in held {
      AllLinesDone(parse, received, done, held, delivered);
    } else {
      LineInTheWay(parse, received, done, held, delivered);
    }
  }

  lemma AllLinesDone<M>(
    parse: Bytes -> Parsed<M>, received: Bytes, done: seq<Bytes>, held: Bytes, delivered: seq<M>)
    requires Framing(parse, received, done, held, delivered) && NEWLINE !in held
    ensures delivered == DeliveredFrom(parse, received)
    ensures Acceptable(parse, received) <==> |held| <= MAX_LINE
  {
    hide Split, Messages;
    SplitUncut(held, NEWLINE);
    assert Init(done + [held]) == done && Last(done + [held]) == held;
    ReadableAppend(parse, done, []);
    assert done + [] == done;
  }

  lemma LineInTheWay<M>(
    parse: Bytes -> Parsed<M>, received: Bytes, done: seq<Bytes>, held: Bytes, delivered: seq<M>)
    requires Framing(parse, received, done, held, delivered)
    requires NEWLINE in held && parse(Split(held, NEWLINE)[0]).Invalid?
    ensures delivered == DeliveredFrom(parse, received) && !Acceptable(parse, received)
  {
    hide Split, Messages;
    SplitUncut(held, NEWLINE);
    var rest := Init(Split(held, NEWLINE));
    assert rest[0] == Split(held, NEWLINE)[0];
    assert Init(done + Split(held, NEWLINE)) == done + rest;
    ReadableAppend(parse, done, rest);
    assert done + [] == done;
    assert (done + rest)[|done|] == rest[0];
  }

  /** More bytes only ever add messages. */
  lemma DeliveredGrows<M>(parse: Bytes -> Parsed<M>, received: Bytes, chunk: Bytes)
    ensures DeliveredFrom(parse, received) <= DeliveredFrom(parse, received + chunk)
  {
    hide Split, Messages, Readable;
    var a, b := Split(received, NEWLINE), Split(chunk, NEWLINE);
    SplitAppend(received, chunk, NEWLINE);
    var rest := Init([Last(a) + b[0]] + b[1..]);
    assert Init(Seam(a, b)) == Init(a) + rest;
    ReadableGrows(parse, Init(a), rest);
    var more := Readable(parse, Init(a) + rest);
    MessagesGrow(parse, Readable(parse, Init(a)), more[|Readable(parse, Init(a))|..]);
    assert more == Readable(parse, Init(a)) + more[|Readable(parse, Init(a))|..];
  }

  lemma {:induction false} ReadableGrows<M>(parse: Bytes -> Parsed<M>, lines: seq<Bytes>, more: seq<Bytes>)
    ensures Readable(parse, lines) <= Readable(parse, lines + more)
  {
    if lines != [] && !parse(lines[0]).Invalid? {
      ReadableGrows(parse, lines[1..], more);
      assert (lines + more)[1..] == lines[1..] + more;
    }
  }

  lemma {:induction false} MessagesGrow<M>(parse: Bytes -> Parsed<M>, lines: seq<Bytes>, more: seq<Bytes>)
    ensures Messages(parse, lines) <= Messages(parse, lines + more)
  {
    if more == [] {
      assert lines + more == lines;
    } else {
      MessagesGrow(parse, lines, Init(more));
      assert Init(lines + more) == lines + Init(more);
    }
  }

  /** The messages of a stream, line by line: `n` is the first complete line that is not JSON, or
      past the last, and `picks` are the lines before it that hold an object. */
  lemma DeliveredExactly<M>(parse: Bytes -> Parsed<M>, received: Bytes) returns (n: nat, picks: seq<nat>)
    ensures var lines, delivered := Init(Split(received, 10)), DeliveredFrom(parse, received);
      && n <= |lines| && (forall i :: 0 <= i < n ==> parse(lines[i]) != Invalid) && (n < |lines| ==> parse(lines[n]) == Invalid)
      && Picks(parse, lines[..n], delivered, picks)
      && (Acceptable(parse, received) <==> n == |lines| && |Last(Split(received, 10))| <= 16 * 1024 * 1024)
  {
    hide Split;
    var lines := Init(Split(received, NEWLINE));
    n := ReadableExactly(parse, lines);
    picks := MessagesExactly(parse, lines[..n]);
    assert forall line :: line in lines ==> exists i :: 0 <= i < |lines| && lines[i] == line;
  }

  lemma {:induction false} ReadableExactly<M>(parse: Bytes -> Parsed<M>, lines: seq<Bytes>) returns (n: nat)
    ensures n <= |lines| && Readable(parse, lines) == lines[..n]
    ensures (forall i :: 0 <= i < n ==> parse(lines[i]) != Invalid) && (n < |lines| ==> parse(lines[n]) == Invalid)
  {
    n := 0;
    if lines != [] && !parse(lines[0]).Invalid? {
      var rest := ReadableExactly(parse, lines[1..]);
      n := rest + 1;
      OneLineMore(lines, rest);
    }
  }

  lemma OneLineMore(lines: seq<Bytes>, rest: nat)
    requires rest < |lines|
    ensures lines[..rest + 1] == [lines[0]] + lines[1..][..rest]
    ensures forall i :: 1 <= i < |lines| ==> lines[i] == lines[1..][i - 1]
  {
  }

  lemma {:induction false} MessagesExactly<M>(parse: Bytes -> Parsed<M>, lines: seq<Bytes>) returns (picks: seq<nat>)
    ensures Picks(parse, lines, Messages(parse, lines), picks)
  {
    picks := [];
    if lines != [] {
      hide Picks;
      picks := MessagesExactly(parse, Init(lines));
      assert lines == Init(lines) + [Last(lines)];
      PicksOn(parse, Init(lines), Last(lines), Messages(parse, Init(lines)), picks);
      if parse(Last(lines)).Message? {
        picks := picks + [|lines| - 1];
      } else {
        assert Messages(parse, lines) == Messages(parse, Init(lines));
      }
    }
  }

  /** The messages are those of the lines at these positions, and no other line has one. */
  ghost predicate Picks<M>(parse: Bytes -> Parsed<M>, lines: seq<Bytes>, messages: seq<M>, picks: seq<nat>) {
    && |picks| == |messages|
    && (forall k :: 0 <= k < |picks| ==> picks[k] < |lines| && parse(lines[picks[k]]) == Message(messages[k]))
    && (forall j, k :: 0 <= j < k < |picks| ==> picks[j] < picks[k])
    && (forall i: nat :: i in picks <==> i < |lines| && parse(lines[i]).Message?)
  }

  lemma PicksOn<M>(parse: Bytes -> Parsed<M>, lines: seq<Bytes>, line: Bytes, messages: seq<M>, picks: seq<nat>)
    requires Picks(parse, lines, messages, picks)
    ensures parse(line).Message? ==>
      Picks(parse, lines + [line], messages + [parse(line).message], picks + [|lines|])
    ensures !parse(line).Message? ==> Picks(parse, lines + [line], messages, picks)
  {
    assert forall i :: 0 <= i < |lines| ==> (lines + [line])[i] == lines[i];
    assert (lines + [line])[|lines|] == line;
  }
}
