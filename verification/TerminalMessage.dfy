/** Assistant messages and the final answer in an OpenCode event stream
    (src/execraft/agents/opencode_adapter.py). */
module TerminalMessage {
  import opened Json
  import opened Sequences
  import Text

  type Event = Fields

  // ----- Reading events -----

  predicate IsKind(event: Event, kind: string) {
    Get(event, "type") == Str(kind)
  }

  function Part(event: Event): Fields {
    match Get(event, "part") case Obj(fields) => fields case _ => map[]
  }

  /** `str(part.get("messageID") or event.get("messageID") or "").strip()`, where `render`
      is what `str` makes of a value that is not text. */
  function MessageId(render: Json -> string, event: Event): string {
    var inPart, inEvent := Get(Part(event), "messageID"), Get(event, "messageID");
    var value := if Truthy(inPart) then inPart else if Truthy(inEvent) then inEvent else Str("");
    Text.Strip(if value.Str? then value.s else render(value))
  }

  /** The non-empty text of a text event. */
  function TextOf(event: Event): Option<string> {
    if !IsKind(event, "text") then None
    else match Get(Part(event), "text")
      case Str(s) => if s == "" then None else Some(s)
      case _ => None
  }

  // ----- Which message an event belongs to -----

  predicate Anonymous(render: Json -> string, event: Event) {
    TextOf(event).Some? && MessageId(render, event) == ""
  }

  function AnonymousCount(render: Json -> string, events: seq<Event>): nat {
    if events == [] then 0
    else AnonymousCount(render, Text.Init(events)) + if Anonymous(render, Text.Last(events)) then 1 else 0
  }

  function AnonymousId(n: nat): string {
    "anonymous-" + Text.Decimal(n)
  }

  /** The id under which the text of event `i` is filed, if it has text. */
  function FiledUnder(render: Json -> string, events: seq<Event>, i: nat): Option<string>
    requires i < |events|
  {
    if TextOf(events[i]).None? then None
    else if MessageId(render, events[i]) != "" then Some(MessageId(render, events[i]))
    else Some(AnonymousId(AnonymousCount(render, events[..i + 1])))
  }

  /** The texts filed under an id, in event order. */
  function TextsUnder(render: Json -> string, events: seq<Event>, id: string): seq<string> {
    if events == [] then []
    else
      TextsUnder(render, Text.Init(events), id)
      + if FiledUnder(render, events, |events| - 1) == Some(id) then [TextOf(Text.Last(events)).value] else []
  }

  /** The last event filed under an id, or -1. */
  function LastUnder(render: Json -> string, events: seq<Event>, id: string): int {
    if events == [] then -1
    else if FiledUnder(render, events, |events| - 1) == Some(id) then |events| - 1
    else LastUnder(render, Text.Init(events), id)
  }

  lemma FiledEarlier(render: Json -> string, events: seq<Event>, n: nat, i: nat)
    requires i < n <= |events|
    ensures FiledUnder(render, events[..n], i) == FiledUnder(render, events, i)
  {
    assert events[..n][..i + 1] == events[..i + 1];
  }

  lemma {:induction false} LastUnderIsLast(render: Json -> string, events: seq<Event>, id: string)
    ensures var last := LastUnder(render, events, id);
      && -1 <= last < |events|
      && (last >= 0 ==> FiledUnder(render, events, last) == Some(id))
      && (forall i :: last < i < |events| ==> FiledUnder(render, events, i) != Some(id))
      && (last >= 0 <==> TextsUnder(render, events, id) != [])
  {
    if events != [] {
      var n := |events| - 1;
      LastUnderIsLast(render, Text.Init(events), id);
      forall i | 0 <= i < n {
        FiledEarlier(render, events, n, i);
      }
    }
  }

  // ----- Messages -----

  datatype Message = Message(id: string, text: string)

  function Concat(texts: seq<string>): string {
    if texts == [] then "" else Concat(Text.Init(texts)) + Text.Last(texts)
  }

  /** One message for each id under which there is text, holding all of it in event order;
      the messages are ordered by their last event. */
  ghost predicate AreMessages(render: Json -> string, events: seq<Event>, messages: seq<Message>) {
    EachWhole(render, events, messages) && Ordered(render, events, messages) && Covered(render, events, messages)
  }

  ghost predicate EachWhole(render: Json -> string, events: seq<Event>, messages: seq<Message>) {
    forall k :: 0 <= k < |messages| ==>
      && LastUnder(render, events, messages[k].id) >= 0
      && messages[k].text == Concat(TextsUnder(render, events, messages[k].id))
  }

  ghost predicate Ordered(render: Json -> string, events: seq<Event>, messages: seq<Message>) {
    forall j, k :: 0 <= j < k < |messages| ==>
      LastUnder(render, events, messages[j].id) < LastUnder(render, events, messages[k].id)
  }

  ghost predicate Covered(render: Json -> string, events: seq<Event>, messages: seq<Message>) {
    forall i :: 0 <= i < |events| && FiledUnder(render, events, i).Some? ==>
      HasMessage(messages, FiledUnder(render, events, i).value)
  }

  predicate HasMessage(messages: seq<Message>, id: string) {
    exists k :: 0 <= k < |messages| && messages[k].id == id
  }

  /** What the loop has collected under one id. */
  ghost predicate CollectedAt(
    render: Json -> string, events: seq<Event>, chunks: map<string, seq<string>>, positions: map<string, nat>, id: string)
  {
    && (id in chunks <==> LastUnder(render, events, id) >= 0)
    && (id in positions <==> id in chunks)
    && (id in chunks && id in positions ==>
          chunks[id] == TextsUnder(render, events, id) && positions[id] == LastUnder(render, events, id))
    && (id !in chunks ==> TextsUnder(render, events, id) == [])
  }

  lemma CollectOne(
    render: Json -> string, events: seq<Event>, chunks: map<string, seq<string>>, positions: map<string, nat>, id: string)
    requires events != [] && CollectedAt(render, Text.Init(events), chunks, positions, id)
    ensures var filed, n := FiledUnder(render, events, |events| - 1), |events| - 1;
      if filed.None? then CollectedAt(render, events, chunks, positions, id)
      else CollectedAt(render, events,
             chunks[filed.value := (if filed.value in chunks then chunks[filed.value] else []) + [TextOf(events[n]).value]],
             positions[filed.value := n], id)
  {
  }

  /** The loop over the events: the chunks and the last position of each id. */
  method CollectChunks(render: Json -> string, events: seq<Event>)
    returns (chunks: map<string, seq<string>>, positions: map<string, nat>)
    ensures forall id :: CollectedAt(render, events, chunks, positions, id)
  {
    chunks, positions := map[], map[];
    var anonymous := 0;
    assert forall id :: CollectedAt(render, events[..0], chunks, positions, id);
    hide TextOf, MessageId, AnonymousId, CollectedAt;
    for i := 0 to |events|
      invariant anonymous == AnonymousCount(render, events[..i])
      invariant forall id :: CollectedAt(render, events[..i], chunks, positions, id)
    {
      var event := events[i];
      ghost var so, was, at := events[..i + 1], chunks, positions;
      assert Text.Init(so) == events[..i] && Text.Last(so) == event && so[..i + 1] == so;
      var text := TextOf(event);
      if text.Some? {
        var id := MessageId(render, event);
        if id == "" {
          anonymous := anonymous + 1;
          id := AnonymousId(anonymous);
        }
        assert FiledUnder(render, so, i) == Some(id);
        chunks := chunks[id := (if id in chunks then chunks[id] else []) + [text.value]];
        positions := positions[id := i];
      }
      forall id
        ensures CollectedAt(render, so, chunks, positions, id)
      {
        CollectOne(render, so, was, at, id);
      }
    }
    assert events[..|events|] == events;
  }

  // sorted(chunks, key=last_position.__getitem__)

  predicate ByPosition(positions: map<string, nat>, ids: seq<string>) {
    && (forall k :: 0 <= k < |ids| ==> ids[k] in positions)
    && forall j, k :: 0 <= j < k < |ids| ==> positions[ids[j]] < positions[ids[k]]
  }

  function Earlier(positions: map<string, nat>): (string, string) -> bool {
    (a: string, b: string) => a in positions && b in positions && positions[a] < positions[b]
  }

  method SortIds(positions: map<string, nat>) returns (ids: seq<string>)
    requires forall a, b :: a in positions && b in positions && a != b ==> positions[a] != positions[b]
    ensures ByPosition(positions, ids) && forall id :: id in ids <==> id in positions
  {
    ids := SortSet(Earlier(positions), positions.Keys);
  }

  lemma CollectedOnce(
    render: Json -> string, events: seq<Event>, chunks: map<string, seq<string>>, positions: map<string, nat>,
    a: string, b: string)
    requires CollectedAt(render, events, chunks, positions, a) && CollectedAt(render, events, chunks, positions, b)
    requires a in positions && b in positions && a != b
    ensures positions[a] != positions[b]
  {
    hide FiledUnder, TextsUnder, LastUnder;
    LastUnderIsLast(render, events, a);
    LastUnderIsLast(render, events, b);
  }

  lemma CollectedMessages(
    render: Json -> string, events: seq<Event>, chunks: map<string, seq<string>>, positions: map<string, nat>,
    ids: seq<string>, messages: seq<Message>)
    requires forall id :: CollectedAt(render, events, chunks, positions, id)
    requires ByPosition(positions, ids) && forall id :: id in ids <==> id in positions
    requires |messages| == |ids|
    requires forall k :: 0 <= k < |ids| ==>
      ids[k] in chunks && messages[k] == Message(ids[k], Concat(chunks[ids[k]]))
    ensures AreMessages(render, events, messages)
  {
    hide FiledUnder, TextsUnder, LastUnder, Concat;
    forall k | 0 <= k < |ids|
      ensures LastUnder(render, events, ids[k]) == positions[ids[k]] >= 0
      ensures messages[k].text == Concat(TextsUnder(render, events, messages[k].id))
    {
      assert CollectedAt(render, events, chunks, positions, ids[k]);
    }
    forall i | 0 <= i < |events| && FiledUnder(render, events, i).Some?
      ensures HasMessage(messages, FiledUnder(render, events, i).value)
    {
      var id := FiledUnder(render, events, i).value;
      LastUnderIsLast(render, events, id);
      assert CollectedAt(render, events, chunks, positions, id);
      assert id in ids;
      var k :| 0 <= k < |ids| && ids[k] == id;
      assert messages[k].id == id;
    }
  }

  /** `_extract_text_messages` */
  method ExtractTextMessages(render: Json -> string, events: seq<Event>) returns (messages: seq<Message>)
    ensures AreMessages(render, events, messages)
  {
    hide AreMessages, FiledUnder, TextsUnder, LastUnder, Concat;
    var chunks, positions := CollectChunks(render, events);
    forall id
      ensures id in positions <==> id in chunks
    {
      assert CollectedAt(render, events, chunks, positions, id);
    }
    forall a, b | a in positions && b in positions && a != b
      ensures positions[a] != positions[b]
    {
      CollectedOnce(render, events, chunks, positions, a, b);
    }
    var ids := SortIds(positions);
    assert forall k :: 0 <= k < |ids| ==> ids[k] in positions && ids[k] in chunks;
    messages := seq(|ids|, k requires 0 <= k < |ids| && ids[k] in chunks => Message(ids[k], Concat(chunks[ids[k]])));
    CollectedMessages(render, events, chunks, positions, ids, messages);
  }

  ghost predicate Increasing(xs: seq<int>) {
    forall j, k :: 0 <= j < k < |xs| ==> xs[j] < xs[k]
  }

  lemma {:induction false} IncreasingUnique(xs: seq<int>, ys: seq<int>)
    requires Increasing(xs) && Increasing(ys) && forall x :: x in xs <==> x in ys
    ensures xs == ys
  {
    assert ys == [] || ys[0] in ys;
    if xs != [] {
      assert xs[0] in xs;
      var m, n := Text.Last(xs), Text.Last(ys);
      assert m in xs && n in ys;
      assert m == n;
      var as_, bs := Text.Init(xs), Text.Init(ys);
      assert xs == as_ + [m] && ys == bs + [n];
      forall x
        ensures x in as_ <==> x in bs
      {
        assert x in as_ <==> x in xs && x != m;
        assert x in bs <==> x in ys && x != n;
      }
      IncreasingUnique(as_, bs);
    }
  }

  function Positions(render: Json -> string, events: seq<Event>, messages: seq<Message>): seq<int> {
    seq(|messages|, k requires 0 <= k < |messages| => LastUnder(render, events, messages[k].id))
  }

  lemma PositionsCover(render: Json -> string, events: seq<Event>, a: seq<Message>, b: seq<Message>, x: int)
    requires AreMessages(render, events, a) && AreMessages(render, events, b)
    requires x in Positions(render, events, a)
    ensures x in Positions(render, events, b)
  {
    var j :| 0 <= j < |a| && LastUnder(render, events, a[j].id) == x;
    LastUnderIsLast(render, events, a[j].id);
    assert FiledUnder(render, events, x) == Some(a[j].id);
    var k :| 0 <= k < |b| && b[k].id == a[j].id;
    assert Positions(render, events, b)[k] == x;
  }

  /** The contract says exactly what the messages are; no two of them share an id, so every
      text event is in one message and in no other. */
  lemma MessagesDetermined(render: Json -> string, events: seq<Event>, a: seq<Message>, b: seq<Message>)
    requires AreMessages(render, events, a) && AreMessages(render, events, b)
    ensures a == b
    ensures forall j, k :: 0 <= j < k < |a| ==> a[j].id != a[k].id
  {
    forall x
      ensures x in Positions(render, events, a) <==> x in Positions(render, events, b)
    {
      if x in Positions(render, events, a) {
        PositionsCover(render, events, a, b, x);
      }
      if x in Positions(render, events, b) {
        PositionsCover(render, events, b, a, x);
      }
    }
    IncreasingUnique(Positions(render, events, a), Positions(render, events, b));
    forall k | 0 <= k < |a|
      ensures k < |b| && a[k] == b[k]
    {
      assert |Positions(render, events, a)| == |Positions(render, events, b)|;
      assert Positions(render, events, a)[k] == Positions(render, events, b)[k];
      LastUnderIsLast(render, events, a[k].id);
      LastUnderIsLast(render, events, b[k].id);
    }
    assert |a| == |Positions(render, events, a)| == |Positions(render, events, b)| == |b|;
  }

  /** A text without an id has a message of its own exactly when no other text carries the
      id made up for it. */
  lemma AnonymousAlone(render: Json -> string, events: seq<Event>, i: nat)
    requires i < |events| && Anonymous(render, events[i])
    ensures (forall j :: 0 <= j < |events| && j != i ==> FiledUnder(render, events, j) != FiledUnder(render, events, i))
       <==> forall j :: 0 <= j < |events| && TextOf(events[j]).Some? ==>
              MessageId(render, events[j]) != FiledUnder(render, events, i).value
  {
    forall j | 0 <= j < |events| && j != i && Anonymous(render, events[j])
      ensures FiledUnder(render, events, j) != FiledUnder(render, events, i)
    {
      if j < i {
        AnonymousCounts(render, events, j, i);
      } else {
        AnonymousCounts(render, events, i, j);
      }
      var m, n := AnonymousCount(render, events[..i + 1]), AnonymousCount(render, events[..j + 1]);
      if AnonymousId(m) == AnonymousId(n) {
        assert AnonymousId(m)[10..] == Text.Decimal(m) && AnonymousId(n)[10..] == Text.Decimal(n);
        Text.DecimalInjective(m, n);
      }
    }
    var id := FiledUnder(render, events, i).value;
    assert id[0] == 'a';
    forall j | 0 <= j < |events| && j != i
      ensures FiledUnder(render, events, j) == FiledUnder(render, events, i)
         <==> TextOf(events[j]).Some? && MessageId(render, events[j]) == id
    {
    }
  }

  // The stream with which a text without an id is taken for part of another message.

  const NAMED_TEXT: Event :=
    map["type" := Str("text"), "messageID" := Str("anonymous-1"), "part" := Obj(map["text" := Str("a")])]
  const UNNAMED_TEXT: Event := map["type" := Str("text"), "part" := Obj(map["text" := Str("b")])]

  lemma CollidingTexts(render: Json -> string)
    ensures TextOf(NAMED_TEXT) == Some("a") && MessageId(render, NAMED_TEXT) == "anonymous-1"
    ensures TextOf(UNNAMED_TEXT) == Some("b") && MessageId(render, UNNAMED_TEXT) == ""
    ensures AnonymousId(1) == "anonymous-1"
  {
    assert Text.StripLeft("anonymous-1") == "anonymous-1" == Text.StripRight("anonymous-1");
    assert Text.Decimal(1) == "1";
  }

  /** A text without an id, after one whose id is "anonymous-1": both end in one message. */
  lemma AnonymousCollides(render: Json -> string)
    ensures var events := [NAMED_TEXT, UNNAMED_TEXT];
      && Anonymous(render, events[1]) && !Anonymous(render, events[0])
      && FiledUnder(render, events, 0) == FiledUnder(render, events, 1)
      && AreMessages(render, events, [Message("anonymous-1", "ab")])
  {
    hide FiledUnder, TextsUnder, LastUnder, Concat, TextOf, MessageId;
    var events, id := [NAMED_TEXT, UNNAMED_TEXT], "anonymous-1";
    CollidingTexts(render);
    CollidingUnder(render);
    LastUnderIsLast(render, events, id);
    assert [Message(id, "ab")][0].id == id;
  }

  lemma CollidingUnder(render: Json -> string)
    ensures var events, id := [NAMED_TEXT, UNNAMED_TEXT], "anonymous-1";
      && FiledUnder(render, events, 0) == Some(id) == FiledUnder(render, events, 1)
      && TextsUnder(render, events, id) == ["a", "b"]
      && Concat(["a", "b"]) == "ab"
  {
    hide TextOf, MessageId, AnonymousId, FiledUnder, Concat;
    CollidingTexts(render);
    CollidingFiled(render);
    ConcatTwo("a", "b");
    var events, id := [NAMED_TEXT, UNNAMED_TEXT], "anonymous-1";
    var one := [NAMED_TEXT];
    FiledEarlier(render, events, 1, 0);
    assert Text.Init(events) == one && Text.Init(one) == [] && events[..1] == one;
    assert TextsUnder(render, one, id) == [] + ["a"];
    assert TextsUnder(render, events, id) == ["a"] + ["b"];
  }

  lemma CollidingFiled(render: Json -> string)
    ensures var events, id := [NAMED_TEXT, UNNAMED_TEXT], "anonymous-1";
      FiledUnder(render, events, 0) == Some(id) == FiledUnder(render, events, 1)
  {
    hide TextOf, MessageId, AnonymousId;
    CollidingTexts(render);
    var events, one := [NAMED_TEXT, UNNAMED_TEXT], [NAMED_TEXT];
    assert Text.Init(events) == one && Text.Init(one) == [] && events[..2] == events;
    assert AnonymousCount(render, one) == 0 && AnonymousCount(render, events) == 1;
  }

  lemma ConcatTwo(a: string, b: string)
    ensures Concat([a, b]) == a + b
  {
    assert Text.Init([a, b]) == [a] && Text.Init([a]) == [];
    assert Concat([a]) == "" + a == a;
  }

  lemma {:induction false} AnonymousCounts(render: Json -> string, events: seq<Event>, i: nat, j: nat)
    requires i < j < |events| && Anonymous(render, events[j])
    ensures AnonymousCount(render, events[..i + 1]) < AnonymousCount(render, events[..j + 1])
    decreases j - i
  {
    assert Text.Init(events[..j + 1]) == events[..j] && Text.Last(events[..j + 1]) == events[j];
    CountGrows(render, events, i + 1, j);
  }

  lemma {:induction false} CountGrows(render: Json -> string, events: seq<Event>, i: nat, j: nat)
    requires i <= j <= |events|
    ensures AnonymousCount(render, events[..i]) <= AnonymousCount(render, events[..j])
    decreases j - i
  {
    if i < j {
      CountGrows(render, events, i, j - 1);
      assert Text.Init(events[..j]) == events[..j - 1];
    }
  }

  // ----- The final answer -----

  function LastOfKind(events: seq<Event>, kind: string): int {
    if events == [] then -1
    else if IsKind(Text.Last(events), kind) then |events| - 1
    else LastOfKind(Text.Init(events), kind)
  }

  lemma {:induction false} LastOfKindIsLast(events: seq<Event>, kind: string)
    ensures var last := LastOfKind(events, kind);
      && -1 <= last < |events|
      && (last >= 0 ==> IsKind(events[last], kind))
      && forall i :: last < i < |events| ==> !IsKind(events[i], kind)
  {
    if events != [] {
      LastOfKindIsLast(Text.Init(events), kind);
    }
  }

  /** The events the final answer may come from: those up to the last `step_finish`, and
      without a message id there only those since its `step_start`. */
  function AnswerWindow(render: Json -> string, events: seq<Event>): (int, int) {
    var finish := LastOfKind(events, "step_finish");
    if finish < 0 || finish >= |events| then (0, 0)
    else if MessageId(render, events[finish]) != "" then (0, finish + 1)
    else
      var start := LastOfKind(events[..finish], "step_start");
      (if start < 0 then 0 else start, finish + 1)
  }

  /** The final answer is the text filed under the step's own message id, or, when it has
      none, the last message of the step. */
  ghost predicate IsAnswer(render: Json -> string, events: seq<Event>, answer: Option<Message>) {
    var finish := LastOfKind(events, "step_finish");
    if finish < 0 || finish >= |events| then answer == None
    else
      var (from, to) := AnswerWindow(render, events);
      0 <= from <= to <= |events| &&
      var window := events[from..to];
      var id := MessageId(render, events[finish]);
      match answer
      case None =>
        if id != "" then TextsUnder(render, window, id) == []
        else forall i :: 0 <= i < |window| ==> TextOf(window[i]) == None
      case Some(message) =>
        && message.text == Concat(TextsUnder(render, window, message.id))
        && LastUnder(render, window, message.id) >= 0
        && (if id != "" then message.id == id
            else forall i :: LastUnder(render, window, message.id) < i < |window| ==> TextOf(window[i]) == None)
  }

  /** `_extract_terminal_message` */
  method ExtractTerminalMessage(render: Json -> string, events: seq<Event>) returns (answer: Option<Message>)
    ensures IsAnswer(render, events, answer)
    ensures RightAnswer(render, events, answer)
    ensures answer == None <==> forall i :: !MayAnswer(render, events, i)
    ensures answer.Some? ==>
      (Fresh(render, events, answer.value) <==> exists i :: PreviousFinish(events) < i && MayAnswer(render, events, i))
  {
    hide RightAnswer;
    answer := TerminalText(render, events);
    AnswerIsRight(render, events, answer);
    AnsweredLast(render, events, answer);
    if answer.Some? {
      FreshExactly(render, events, answer.value);
    }
  }

  method TerminalText(render: Json -> string, events: seq<Event>) returns (answer: Option<Message>)
    ensures IsAnswer(render, events, answer)
  {
    hide AreMessages, TextsUnder, LastUnder, Concat, TextOf;
    var finish := LastOfKind(events, "step_finish");
    LastOfKindIsLast(events, "step_finish");
    if finish < 0 {
      return None;
    }
    var id := MessageId(render, events[finish]);
    assert events[0..finish + 1] == events[..finish + 1];
    if id != "" {
      answer := MessageNamed(render, events[..finish + 1], id);
      return;
    }
    var start := LastOfKind(events[..finish], "step_start");
    LastOfKindIsLast(events[..finish], "step_start");
    if start < 0 {
      start := 0;
    }
    answer := LastMessage(render, events[start..finish + 1]);
  }

  method MessageNamed(render: Json -> string, window: seq<Event>, id: string) returns (answer: Option<Message>)
    ensures answer == None ==> TextsUnder(render, window, id) == []
    ensures answer.Some? ==>
      && answer.value.id == id && LastUnder(render, window, id) >= 0
      && answer.value.text == Concat(TextsUnder(render, window, id))
  {
    var messages := ExtractTextMessages(render, window);
    LastUnderIsLast(render, window, id);
    answer := Matching(messages, id);
  }

  method LastMessage(render: Json -> string, window: seq<Event>) returns (answer: Option<Message>)
    ensures answer == None ==> forall i :: 0 <= i < |window| ==> TextOf(window[i]) == None
    ensures answer.Some? ==>
      && LastUnder(render, window, answer.value.id) >= 0
      && answer.value.text == Concat(TextsUnder(render, window, answer.value.id))
      && forall i :: LastUnder(render, window, answer.value.id) < i < |window| ==> TextOf(window[i]) == None
  {
    var messages := ExtractTextMessages(render, window);
    if messages == [] {
      forall i | 0 <= i < |window|
        ensures TextOf(window[i]) == None
      {
        assert FiledUnder(render, window, i) == None;
      }
      return None;
    }
    NothingAfterLast(render, window, messages);
    answer := Some(messages[|messages| - 1]);
  }

  /** `next((m for m in reversed(messages) if m[0] == id), None)` */
  method Matching(messages: seq<Message>, id: string) returns (found: Option<Message>)
    ensures found.Some? ==> found.value in messages && found.value.id == id
    ensures found == None ==> !HasMessage(messages, id)
  {
    var i := |messages|;
    while i > 0
      invariant 0 <= i <= |messages|
      invariant forall k :: i <= k < |messages| ==> messages[k].id != id
    {
      i := i - 1;
      if messages[i].id == id {
        return Some(messages[i]);
      }
    }
    return None;
  }

  lemma NothingAfterLast(render: Json -> string, events: seq<Event>, messages: seq<Message>)
    requires AreMessages(render, events, messages) && messages != []
    ensures forall i :: LastUnder(render, events, Text.Last(messages).id) < i < |events| ==> TextOf(events[i]) == None
  {
    hide AreMessages, LastUnder, FiledUnder, TextsUnder, Concat, TextOf, MessageId;
    var last := LastUnder(render, events, Text.Last(messages).id);
    LastUnderIsLast(render, events, Text.Last(messages).id);
    forall i: nat | last < i < |events|
      ensures TextOf(events[i]) == None
    {
      if TextOf(events[i]).Some? {
        FiledBeforeLast(render, events, messages, i);
      }
    }
  }

  lemma FiledBeforeLast(render: Json -> string, events: seq<Event>, messages: seq<Message>, i: nat)
    requires AreMessages(render, events, messages) && i < |events| && TextOf(events[i]).Some?
    ensures messages != [] && i <= LastUnder(render, events, Text.Last(messages).id)
  {
    hide LastUnder, FiledUnder, TextsUnder, Concat, TextOf, MessageId, Anonymous, AnonymousCount, EachWhole;
    FiledWithText(render, events, i);
    var k :| 0 <= k < |messages| && messages[k].id == FiledUnder(render, events, i).value;
    LastUnderIsLast(render, events, messages[k].id);
  }

  lemma FiledWithText(render: Json -> string, events: seq<Event>, i: nat)
    requires i < |events|
    ensures FiledUnder(render, events, i).Some? <==> TextOf(events[i]).Some?
  {
  }

  /** There is one answer and no more: it is fixed by the events up to the last `step_finish`. */
  lemma AnswerDetermined(render: Json -> string, events: seq<Event>, a: Option<Message>, b: Option<Message>)
    requires IsAnswer(render, events, a) && IsAnswer(render, events, b)
    ensures a == b
  {
    hide LastUnder, FiledUnder, TextsUnder, Concat, TextOf, MessageId, Anonymous, AnonymousCount, LastOfKind;
    var finish := LastOfKind(events, "step_finish");
    if 0 <= finish < |events| {
      var (from, to) := AnswerWindow(render, events);
      var window := events[from..to];
      if a.Some? {
        LastUnderIsLast(render, window, a.value.id);
        FiledWithText(render, window, LastUnder(render, window, a.value.id));
      }
      if b.Some? {
        LastUnderIsLast(render, window, b.value.id);
        FiledWithText(render, window, LastUnder(render, window, b.value.id));
      }
    }
  }

  // ----- Whether the answer is that of the last step -----

  /** The `step_finish` before the last one, or -1. */
  function PreviousFinish(events: seq<Event>): int {
    var finish := LastOfKind(events, "step_finish");
    if finish < 0 || finish > |events| then -1 else LastOfKind(events[..finish], "step_finish")
  }

  /** Event `i` is a text that the last `step_finish` may answer with: under its message id, or,
      when it has none, any since the `step_start`. */
  ghost predicate MayAnswer(render: Json -> string, events: seq<Event>, i: int) {
    var finish := LastOfKind(events, "step_finish");
    && 0 <= finish < |events|
    && var (from, to) := AnswerWindow(render, events);
       && 0 <= from <= i < to <= |events| && TextOf(events[i]).Some?
       && (MessageId(render, events[finish]) != "" ==>
             FiledUnder(render, events[from..to], i - from) == Some(MessageId(render, events[finish])))
  }

  /** Where in the stream the last text of the answer is. */
  function AnsweredAt(render: Json -> string, events: seq<Event>, answer: Message): int {
    var (from, to) := AnswerWindow(render, events);
    if 0 <= from <= to <= |events| then from + LastUnder(render, events[from..to], answer.id) else -1
  }

  /** The answer ends in the last finished step, after the one finished before it. */
  predicate Fresh(render: Json -> string, events: seq<Event>, answer: Message) {
    AnsweredAt(render, events, answer) > PreviousFinish(events)
  }

  lemma AnsweredLast(render: Json -> string, events: seq<Event>, answer: Option<Message>)
    requires IsAnswer(render, events, answer)
    ensures answer == None <==> forall i :: !MayAnswer(render, events, i)
    ensures answer.Some? ==> MayAnswer(render, events, AnsweredAt(render, events, answer.value))
    ensures answer.Some? ==> forall i :: MayAnswer(render, events, i) ==> i <= AnsweredAt(render, events, answer.value)
  {
    hide TextsUnder, Concat, TextOf, MessageId, Anonymous, AnonymousCount, LastOfKind, LastUnder, FiledUnder;
    var finish := LastOfKind(events, "step_finish");
    if 0 <= finish < |events| {
      var (from, to) := AnswerWindow(render, events);
      var window, id := events[from..to], MessageId(render, events[finish]);
      forall i | from <= i < to
        ensures window[i - from] == events[i]
        ensures FiledUnder(render, window, i - from).Some? <==> TextOf(events[i]).Some?
      {
        FiledWithText(render, window, i - from);
      }
      if answer.Some? {
        LastUnderIsLast(render, window, answer.value.id);
        assert MayAnswer(render, events, AnsweredAt(render, events, answer.value));
      } else if id != "" {
        LastUnderIsLast(render, window, id);
      }
    }
  }

  /** The answer is fresh exactly when some text that may answer stands between the last two
      `step_finish` events; otherwise it is left over from an earlier step. */
  lemma FreshExactly(render: Json -> string, events: seq<Event>, answer: Message)
    requires IsAnswer(render, events, Some(answer))
    ensures Fresh(render, events, answer) <==> exists i :: PreviousFinish(events) < i && MayAnswer(render, events, i)
  {
    hide IsAnswer, MayAnswer, AnsweredAt, PreviousFinish;
    AnsweredLast(render, events, Some(answer));
  }

  // ----- The answer, read off the events -----

  /** Event `f` is the last `step_finish`. */
  predicate LastFinish(events: seq<Event>, f: nat) {
    && f < |events| && Get(events[f], "type") == Str("step_finish")
    && forall j :: f < j < |events| ==> Get(events[j], "type") != Str("step_finish")
  }

  /** Event `i` is a text before `f` with no `step_start` between them. */
  predicate TextSinceStart(events: seq<Event>, f: nat, i: int) {
    && 0 <= i < f <= |events| && TextOf(events[i]).Some?
    && forall j :: i < j < f ==> Get(events[j], "type") != Str("step_start")
  }

  /** The step that ends at `f` begins at `s`: at the last `step_start` before, or at the first event. */
  predicate BeginsAt(events: seq<Event>, f: nat, s: nat) {
    && s <= f <= |events| && (s == 0 || (s < f && Get(events[s], "type") == Str("step_start")))
    && forall j :: s < j < f ==> Get(events[j], "type") != Str("step_start")
  }

  /** A step without a message id is answered with the message of the last text since its start, and
      with no text from before; there is no answer exactly when there is no such text. */
  ghost predicate AnswersBareStep(render: Json -> string, events: seq<Event>, f: nat, answer: Option<Message>)
    requires f < |events|
  {
    && (answer == None <==> forall i :: !TextSinceStart(events, f, i))
    && (answer.Some? ==>
          exists s: nat, i: nat :: BeginsAt(events, f, s) && s <= i && TextSinceStart(events, f, i)
            && (forall k :: i < k ==> !TextSinceStart(events, f, k))
            && IsMessageOf(render, events[s..f + 1], i - s, answer.value))
  }

  /** The message that text `i` of a stretch of events belongs to, whole. */
  ghost predicate IsMessageOf(render: Json -> string, stretch: seq<Event>, i: int, message: Message) {
    && 0 <= i < |stretch| && FiledUnder(render, stretch, i) == Some(message.id)
    && message.text == Concat(TextsUnder(render, stretch, message.id))
  }

  ghost predicate FiledAmong(render: Json -> string, stretch: seq<Event>, id: string) {
    exists i :: 0 <= i < |stretch| && FiledUnder(render, stretch, i) == Some(id)
  }

  /** One with a message id is answered with all text filed under that id so far. */
  ghost predicate AnswersNamedStep(render: Json -> string, events: seq<Event>, f: nat, answer: Option<Message>)
    requires f < |events|
  {
    var id := MessageId(render, events[f]);
    && (answer == None <==> !FiledAmong(render, events[..f + 1], id))
    && (answer.Some? ==> answer.value == Message(id, Concat(TextsUnder(render, events[..f + 1], id))))
  }

  ghost predicate RightAnswer(render: Json -> string, events: seq<Event>, answer: Option<Message>) {
    && ((forall f: nat :: !LastFinish(events, f)) ==> answer == None)
    && forall f: nat :: LastFinish(events, f) ==>
         if MessageId(render, events[f]) == "" then AnswersBareStep(render, events, f, answer)
         else AnswersNamedStep(render, events, f, answer)
  }

  lemma LastFinishFound(events: seq<Event>)
    ensures var finish := LastOfKind(events, "step_finish");
      && -1 <= finish < |events|
      && (finish >= 0 ==> LastFinish(events, finish))
      && forall f: nat :: LastFinish(events, f) ==> f == finish
  {
    LastOfKindIsLast(events, "step_finish");
  }

  lemma StartFound(events: seq<Event>, f: nat)
    requires f < |events|
    ensures var start := LastOfKind(events[..f], "step_start");
      var s := if start < 0 then 0 else start;
      BeginsAt(events, f, s) && forall i :: 0 <= i < s ==> !TextSinceStart(events, f, i)
  {
    LastOfKindIsLast(events[..f], "step_start");
    hide LastOfKind, TextOf;
    var start := LastOfKind(events[..f], "step_start");
    assert forall j :: 0 <= j < f ==> events[..f][j] == events[j];
  }

  lemma BareStepAnswered(render: Json -> string, events: seq<Event>, f: nat, answer: Option<Message>)
    requires LastFinish(events, f) && MessageId(render, events[f]) == "" && IsAnswer(render, events, answer)
    ensures AnswersBareStep(render, events, f, answer)
  {
    hide LastOfKind, TextOf, TextsUnder, LastUnder, Concat, MessageId, FiledUnder, TextSinceStart, BeginsAt, IsMessageOf,
         AnswersBareStep, IsAnswer;
    var start := LastOfKind(events[..f], "step_start");
    var s := if start < 0 then 0 else start;
    StartFound(events, f);
    FinishIsNoText(events, f);
    WindowAnswers(render, events, f, answer);
    TextsOfWindow(events, f, s);
    if answer.Some? {
      LastInWindow(render, events, f, s, answer.value);
    } else {
      NoneInWindow(render, events, f);
    }
  }

  lemma WindowOf(render: Json -> string, events: seq<Event>, f: nat)
    requires LastFinish(events, f)
    ensures f == LastOfKind(events, "step_finish")
    ensures var start := LastOfKind(events[..f], "step_start");
      && start < f
      && AnswerWindow(render, events)
           == (if MessageId(render, events[f]) != "" || start < 0 then 0 else start, f + 1)
  {
    LastFinishFound(events);
    LastOfKindIsLast(events[..f], "step_start");
    hide LastOfKind, MessageId, LastFinish;
  }

  /** What `IsAnswer` says of a step without a message id. */
  lemma WindowAnswers(render: Json -> string, events: seq<Event>, f: nat, answer: Option<Message>)
    requires LastFinish(events, f) && MessageId(render, events[f]) == "" && IsAnswer(render, events, answer)
    ensures var start := LastOfKind(events[..f], "step_start");
      var s := if start < 0 then 0 else start;
      s <= f &&
      var window := events[s..f + 1];
      match answer
      case None => forall i :: 0 <= i < |window| ==> TextOf(window[i]) == None
      case Some(message) =>
        var last := LastUnder(render, window, message.id);
        && 0 <= last < |window| && FiledUnder(render, window, last) == Some(message.id) && TextOf(window[last]).Some?
        && message.text == Concat(TextsUnder(render, window, message.id))
        && forall i :: last < i < |window| ==> TextOf(window[i]) == None
  {
    WindowOf(render, events, f);
    hide LastOfKind, TextOf, TextsUnder, LastUnder, Concat, MessageId, FiledUnder, LastFinish, AnswerWindow;
    var start := LastOfKind(events[..f], "step_start");
    var window := events[if start < 0 then 0 else start..f + 1];
    if answer.Some? {
      LastUnderIsLast(render, window, answer.value.id);
      FiledWithText(render, window, LastUnder(render, window, answer.value.id));
    }
  }

  lemma NoneInWindow(render: Json -> string, events: seq<Event>, f: nat)
    requires f < |events| && forall i :: !TextSinceStart(events, f, i)
    ensures AnswersBareStep(render, events, f, None)
  {
    hide TextSinceStart, BeginsAt, IsMessageOf;
  }

  lemma TextsOfWindow(events: seq<Event>, f: nat, s: nat)
    requires f < |events| && BeginsAt(events, f, s) && TextOf(events[f]) == None
    requires forall i :: 0 <= i < s ==> !TextSinceStart(events, f, i)
    ensures var window := events[s..f + 1];
      && (forall i :: 0 <= i < |window| ==> (TextSinceStart(events, f, s + i) <==> TextOf(window[i]).Some?))
      && (forall i :: TextSinceStart(events, f, i) ==> s <= i && i - s < |window| && TextOf(window[i - s]).Some?)
  {
    hide TextOf;
  }

  lemma LastInWindow(render: Json -> string, events: seq<Event>, f: nat, s: nat, answer: Message)
    requires s <= f < |events| && BeginsAt(events, f, s)
    requires var window, last := events[s..f + 1], LastUnder(render, events[s..f + 1], answer.id);
      && 0 <= last < |window| && FiledUnder(render, window, last) == Some(answer.id) && TextSinceStart(events, f, s + last)
      && answer.text == Concat(TextsUnder(render, window, answer.id))
      && (forall i :: TextSinceStart(events, f, i) ==> i <= s + last)
    ensures AnswersBareStep(render, events, f, Some(answer))
  {
    hide LastUnder, FiledUnder, TextsUnder, Concat, TextSinceStart, BeginsAt;
    var last := LastUnder(render, events[s..f + 1], answer.id);
    assert IsMessageOf(render, events[s..f + 1], s + last - s, answer);
  }

  lemma FinishIsNoText(events: seq<Event>, f: nat)
    requires LastFinish(events, f)
    ensures TextOf(events[f]) == None
  {
  }

  lemma NamedStepAnswered(render: Json -> string, events: seq<Event>, f: nat, answer: Option<Message>)
    requires LastFinish(events, f) && MessageId(render, events[f]) != "" && IsAnswer(render, events, answer)
    ensures AnswersNamedStep(render, events, f, answer)
  {
    LastFinishFound(events);
    hide LastOfKind, TextOf, TextsUnder, LastUnder, Concat, MessageId, FiledUnder, LastFinish;
    var id := MessageId(render, events[f]);
    assert events[0..f + 1] == events[..f + 1];
    LastUnderIsLast(render, events[..f + 1], id);
  }

  /** The texts that may answer are those since the start of the step or, if it has a message id,
      those filed under that. */
  lemma MayAnswerExactly(render: Json -> string, events: seq<Event>, f: nat, i: int)
    requires LastFinish(events, f)
    ensures MayAnswer(render, events, i) <==>
      if MessageId(render, events[f]) == "" then TextSinceStart(events, f, i)
      else 0 <= i <= f && FiledUnder(render, events[..f + 1], i) == Some(MessageId(render, events[f]))
  {
    if MessageId(render, events[f]) == "" {
      MayAnswerBare(render, events, f, i);
    } else {
      MayAnswerNamed(render, events, f, i);
    }
  }

  lemma MayAnswerBare(render: Json -> string, events: seq<Event>, f: nat, i: int)
    requires LastFinish(events, f) && MessageId(render, events[f]) == ""
    ensures MayAnswer(render, events, i) <==> TextSinceStart(events, f, i)
  {
    WindowOf(render, events, f);
    StartFound(events, f);
    FinishIsNoText(events, f);
    hide LastOfKind, TextOf, MessageId, FiledUnder, LastFinish, TextSinceStart, BeginsAt, AnswerWindow;
    var start := LastOfKind(events[..f], "step_start");
    var s := if start < 0 then 0 else start;
    TextsOfWindow(events, f, s);
    if s <= i <= f {
      assert events[s..f + 1][i - s] == events[i] && s + (i - s) == i;
    }
  }

  lemma MayAnswerNamed(render: Json -> string, events: seq<Event>, f: nat, i: int)
    requires LastFinish(events, f) && MessageId(render, events[f]) != ""
    ensures MayAnswer(render, events, i) <==>
      0 <= i <= f && FiledUnder(render, events[..f + 1], i) == Some(MessageId(render, events[f]))
  {
    WindowOf(render, events, f);
    hide LastOfKind, TextOf, MessageId, FiledUnder, LastFinish, AnswerWindow;
    assert events[0..f + 1] == events[..f + 1];
    if 0 <= i <= f {
      FiledWithText(render, events[..f + 1], i);
    }
  }

  /** What an answer is, without any window. */
  lemma AnswerIsRight(render: Json -> string, events: seq<Event>, answer: Option<Message>)
    requires IsAnswer(render, events, answer)
    ensures RightAnswer(render, events, answer)
  {
    LastFinishFound(events);
    hide AnswersBareStep, AnswersNamedStep, LastFinish, MessageId, LastOfKind;
    var finish := LastOfKind(events, "step_finish");
    if finish >= 0 {
      if MessageId(render, events[finish]) == "" {
        BareStepAnswered(render, events, finish, answer);
      } else {
        NamedStepAnswered(render, events, finish, answer);
      }
    }
  }

  // The streams with which the text of an earlier step is the answer of the last one.

  const BARE_FINISH: Event := map["type" := Str("step_finish")]

  lemma BareFinish(render: Json -> string)
    ensures MessageId(render, BARE_FINISH) == "" && TextOf(BARE_FINISH) == None
    ensures IsKind(BARE_FINISH, "step_finish") && !IsKind(BARE_FINISH, "step_start")
    ensures !IsKind(UNNAMED_TEXT, "step_finish") && !IsKind(UNNAMED_TEXT, "step_start")
    ensures !IsKind(ANSWER_TEXT, "step_finish") && IsKind(ANSWER_FINISH, "step_finish")
  {
  }

  lemma LeftOverTexts(render: Json -> string, text: Event, finish: Event, id: string, s: string)
    requires TextOf(text) == Some(s) && TextOf(finish) == None && FiledUnder(render, [text], 0) == Some(id)
    ensures var events := [text, finish, finish];
      TextsUnder(render, events, id) == [s] && LastUnder(render, events, id) == 0 && Concat([s]) == s
  {
    hide TextOf, AnonymousCount, MessageId;
    var one, two, events := [text], [text, finish], [text, finish, finish];
    assert Text.Init(one) == [] && Text.Init(two) == one && Text.Init(events) == two;
    assert TextsUnder(render, one, id) == [] + [s];
    assert TextsUnder(render, two, id) == [s] + [] && TextsUnder(render, events, id) == [s] + [];
    assert LastUnder(render, one, id) == 0 && LastUnder(render, two, id) == 0;
    assert Concat([s]) == "" + s;
  }

  lemma LastTwo(text: Event, finish: Event)
    requires !IsKind(text, "step_finish") && IsKind(finish, "step_finish")
    ensures LastOfKind([text, finish, finish], "step_finish") == 2 && PreviousFinish([text, finish, finish]) == 1
  {
    hide IsKind;
    assert [text, finish, finish][..2] == [text, finish];
  }

  /** After a step without a message id that finishes without text. */
  lemma StaleAnswer(render: Json -> string)
    ensures var events, answer := [UNNAMED_TEXT, BARE_FINISH, BARE_FINISH], Message("anonymous-1", "b");
      IsAnswer(render, events, Some(answer)) && !Fresh(render, events, answer)
  {
    hide TextOf, MessageId, TextsUnder, LastUnder, Concat, IsKind;
    var events := [UNNAMED_TEXT, BARE_FINISH, BARE_FINISH];
    BareFinish(render);
    CollidingTexts(render);
    assert Text.Init([UNNAMED_TEXT]) == [] && [UNNAMED_TEXT][..1] == [UNNAMED_TEXT];
    assert AnonymousCount(render, [UNNAMED_TEXT]) == 1;
    LastTwo(UNNAMED_TEXT, BARE_FINISH);
    LeftOverTexts(render, UNNAMED_TEXT, BARE_FINISH, "anonymous-1", "b");
    assert events[..2] == [UNNAMED_TEXT, BARE_FINISH] && Text.Init([UNNAMED_TEXT, BARE_FINISH]) == [UNNAMED_TEXT];
    assert LastOfKind([], "step_start") == -1 == LastOfKind([UNNAMED_TEXT], "step_start");
    assert LastOfKind(events[..2], "step_start") == -1;
    assert events[0..3] == events;
  }

  /** After a step that shares its message id with an earlier one and finishes without text. */
  lemma StaleSharedAnswer(render: Json -> string)
    ensures var events, answer := [ANSWER_TEXT, ANSWER_FINISH, ANSWER_FINISH], Message("m", "y");
      IsAnswer(render, events, Some(answer)) && !Fresh(render, events, answer)
  {
    hide TextOf, MessageId, TextsUnder, LastUnder, Concat, IsKind, LastOfKind;
    var events := [ANSWER_TEXT, ANSWER_FINISH, ANSWER_FINISH];
    BareFinish(render);
    AnswerIds(render);
    LastTwo(ANSWER_TEXT, ANSWER_FINISH);
    LeftOverTexts(render, ANSWER_TEXT, ANSWER_FINISH, "m", "y");
    assert events[0..3] == events;
  }

  // ----- The decision in `execute` -----

  /** `_extract_error_message`: only the first error event counts. */
  function ErrorMessage(render: Json -> string, events: seq<Event>): string {
    if events == [] then ""
    else if IsKind(events[0], "error") then
      match Get(events[0], "error")
      case Obj(error) =>
        var detail := match Get(error, "data") case Obj(data) => Get(data, "message") case _ => Null;
        var value := if Truthy(detail) then detail else if "message" in error then error["message"] else Str("");
        if value.Str? then value.s else render(value)
      case _ => ""
    else ErrorMessage(render, events[1..])
  }

  /** An error event that says nothing `_extract_error_message` can use. */
  predicate Wordless(render: Json -> string, event: Event) {
    match Get(event, "error")
    case Obj(error) =>
      var said := match Get(error, "data") case Obj(data) => Truthy(Get(data, "message")) case _ => false;
      && (said ==> render(error["data"].fields["message"]) == "" && !error["data"].fields["message"].Str?)
      && (!said && "message" in error ==>
            error["message"] == Str("") || (!error["message"].Str? && render(error["message"]) == ""))
    case _ => true
  }

  ghost predicate FirstOfKind(events: seq<Event>, kind: string, i: nat) {
    i < |events| && IsKind(events[i], kind) && forall j :: 0 <= j < i ==> !IsKind(events[j], kind)
  }

  /** The run counts as free of errors exactly when it has no error event or the first one
      is wordless, whatever the later ones say. */
  lemma {:induction false} ErrorFreeExactly(render: Json -> string, events: seq<Event>)
    ensures ErrorMessage(render, events) == "" <==>
      forall i: nat :: FirstOfKind(events, "error", i) ==> Wordless(render, events[i])
  {
    if events != [] {
      var rest := events[1..];
      if IsKind(events[0], "error") {
        assert FirstOfKind(events, "error", 0);
      } else {
        ErrorFreeExactly(render, rest);
        forall i: nat
          ensures FirstOfKind(rest, "error", i) <==> FirstOfKind(events, "error", i + 1)
        {
          if FirstOfKind(rest, "error", i) {
            forall j | 0 <= j < i + 1
              ensures !IsKind(events[j], "error")
            {
              assert j == 0 || events[j] == rest[j - 1];
            }
          }
          if FirstOfKind(events, "error", i + 1) {
            forall j | 0 <= j < i
              ensures !IsKind(rest[j], "error")
            {
              assert rest[j] == events[j + 1];
            }
          }
        }
        forall i: nat | FirstOfKind(events, "error", i)
          ensures i > 0 && FirstOfKind(rest, "error", i - 1) && rest[i - 1] == events[i]
        {
          assert i > 0;
          assert FirstOfKind(rest, "error", i - 1) <==> FirstOfKind(events, "error", i - 1 + 1);
        }
      }
    }
  }

  datatype Execution = Success(answer: string) | ProviderFailure | NoAnswer

  method Conclude(render: Json -> string, events: seq<Event>, returncode: int) returns (result: Execution)
    ensures result.Success? ==>
      && returncode == 0 && ErrorMessage(render, events) == ""
      && exists message :: IsAnswer(render, events, Some(message)) && message.text == result.answer
    ensures result.Success? ==> exists message ::
      && IsAnswer(render, events, Some(message)) && RightAnswer(render, events, Some(message)) && message.text == result.answer
      && (Fresh(render, events, message) <==> exists i :: PreviousFinish(events) < i && MayAnswer(render, events, i))
    ensures result.NoAnswer? ==>
      IsAnswer(render, events, None) && RightAnswer(render, events, None) && forall i :: !MayAnswer(render, events, i)
    ensures result.ProviderFailure? <==> returncode != 0 || ErrorMessage(render, events) != ""
  {
    if returncode != 0 || ErrorMessage(render, events) != "" {
      return ProviderFailure;
    }
    var answer := ExtractTerminalMessage(render, events);
    AnsweredLast(render, events, answer);
    if answer.None? {
      return NoAnswer;
    }
    FreshExactly(render, events, answer.value);
    return Success(answer.value.text);
  }

  // The stream with which an error event goes along with success.

  const WORDLESS_ERROR: Event := map["type" := Str("error")]
  const LATER_ERROR: Event := map["type" := Str("error"), "error" := Obj(map["message" := Str("x")])]
  const ANSWER_TEXT: Event :=
    map["type" := Str("text"), "messageID" := Str("m"), "part" := Obj(map["text" := Str("y")])]
  const ANSWER_FINISH: Event := map["type" := Str("step_finish"), "messageID" := Str("m")]

  /** A session error does not always fail the run, although the comment in `execute` says so. */
  lemma ErrorAndSuccess(render: Json -> string)
    ensures var events := [WORDLESS_ERROR, LATER_ERROR, ANSWER_TEXT, ANSWER_FINISH];
      && ErrorMessage(render, events) == ""
      && ErrorMessage(render, events[1..]) == "x"
      && IsAnswer(render, events, Some(Message("m", "y")))
  {
    hide TextsUnder, LastUnder, Concat, MessageId, TextOf;
    var events := [WORDLESS_ERROR, LATER_ERROR, ANSWER_TEXT, ANSWER_FINISH];
    assert LastOfKind(events, "step_finish") == 3;
    AnswerIds(render);
    assert events[0..4] == events;
    ErrorAndSuccessTexts(render);
  }

  lemma AnswerIds(render: Json -> string)
    ensures MessageId(render, ANSWER_FINISH) == "m" == MessageId(render, ANSWER_TEXT)
    ensures TextOf(ANSWER_TEXT) == Some("y") && TextOf(ANSWER_FINISH) == None
  {
    assert Text.StripLeft("m") == "m" == Text.StripRight("m");
  }

  lemma OneMoreEvent(render: Json -> string, events: seq<Event>, event: Event, id: string)
    requires MessageId(render, event) != ""
    ensures var text, more := TextOf(event), events + [event];
      var here := text.Some? && MessageId(render, event) == id;
      && TextsUnder(render, more, id) == TextsUnder(render, events, id) + (if here then [text.value] else [])
      && LastUnder(render, more, id) == if here then |events| else LastUnder(render, events, id)
  {
  }

  lemma ErrorAndSuccessTexts(render: Json -> string)
    ensures var events := [WORDLESS_ERROR, LATER_ERROR, ANSWER_TEXT, ANSWER_FINISH];
      && Concat(TextsUnder(render, events, "m")) == "y"
      && LastUnder(render, events, "m") == 2
  {
    hide TextsUnder, LastUnder, FiledUnder, MessageId, TextOf;
    AnswerIds(render);
    var errors := [WORDLESS_ERROR, LATER_ERROR];
    ErrorsHoldNoText(render);
    OneMoreEvent(render, errors, ANSWER_TEXT, "m");
    OneMoreEvent(render, errors + [ANSWER_TEXT], ANSWER_FINISH, "m");
    assert errors + [ANSWER_TEXT] + [ANSWER_FINISH] == [WORDLESS_ERROR, LATER_ERROR, ANSWER_TEXT, ANSWER_FINISH];
    assert Text.Init(["y"]) == [];
  }

  lemma ErrorsHoldNoText(render: Json -> string)
    ensures TextsUnder(render, [WORDLESS_ERROR, LATER_ERROR], "m") == []
  {
    var one, two := [WORDLESS_ERROR], [WORDLESS_ERROR, LATER_ERROR];
    assert Text.Init(two) == one && Text.Init(one) == [];
    assert FiledUnder(render, two, 1) == None == FiledUnder(render, one, 0);
    assert TextsUnder(render, [], "m") == [];
    assert TextsUnder(render, one, "m") == [] + [];
    assert TextsUnder(render, two, "m") == [] + [];
  }
}
