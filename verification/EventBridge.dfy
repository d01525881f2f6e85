/** The OpenCode event bridge (src/execraft/agents/opencode_events.py): decoding of
    newline-separated records that arrive in arbitrary chunks, with a size limit per record. */
module EventBridge {
  import opened Text

  const LIMIT: nat := 16 * 1024 * 1024

  // ----- Sizes -----

  /** The length of a character in UTF-8. */
  function CharBytes(c: char): nat {
    if c < '\U{80}' then 1 else if c < '\U{800}' then 2 else if c < '\U{10000}' then 3 else 4
  }

  function ByteLen(s: string): nat {
    if s == "" then 0 else CharBytes(s[0]) + ByteLen(s[1..])
  }

  lemma {:induction false} ByteLenAppend(a: string, b: string)
    ensures ByteLen(a + b) == ByteLen(a) + ByteLen(b)
  {
    if a == "" {
      assert a + b == b;
    } else {
      ByteLenAppend(a[1..], b);
      assert (a + b)[1..] == a[1..] + b;
    }
  }

  /** The bytes of a character in UTF-8 (section 3 of RFC 3629). */
  function Utf8(c: char): seq<int> {
    var n := c as int;
    if n < 0x80 then [n]
    else if n < 0x800 then [0xC0 + n / 64, 0x80 + n % 64]
    else if n < 0x10000 then [0xE0 + n / 64 / 64, 0x80 + n / 64 % 64, 0x80 + n % 64]
    else [0xF0 + n / 64 / 64 / 64, 0x80 + n / 64 / 64 % 64, 0x80 + n / 64 % 64, 0x80 + n % 64]
  }

  function Encoded(s: string): seq<int> {
    if s == "" then [] else Utf8(s[0]) + Encoded(s[1..])
  }

  function Trailing(byte: int, before: int): int {
    before * 64 + (byte - 0x80)
  }

  /** The code point whose encoding starts `bytes`, as its first byte says how long it is. */
  function FirstOf(bytes: seq<int>): int
    requires |bytes| > 3
  {
    if bytes[0] < 0xC0 then bytes[0]
    else if bytes[0] < 0xE0 then Trailing(bytes[1], bytes[0] - 0xC0)
    else if bytes[0] < 0xF0 then Trailing(bytes[2], Trailing(bytes[1], bytes[0] - 0xE0))
    else Trailing(bytes[3], Trailing(bytes[2], Trailing(bytes[1], bytes[0] - 0xF0)))
  }

  lemma Utf8Reads(c: char, rest: seq<int>)
    requires |rest| >= 3
    ensures FirstOf(Utf8(c) + rest) == c as int
  {
    var n, bytes := c as int, Utf8(c) + rest;
    assert n == n / 64 * 64 + n % 64;
    assert forall i :: 0 <= i < |Utf8(c)| ==> bytes[i] == Utf8(c)[i];
    if 0x80 <= n < 0x800 {
      assert bytes[0] < 0xE0;
    } else if 0x800 <= n < 0x10000 {
      assert 0xE0 <= bytes[0] < 0xF0;
    } else if 0x10000 <= n {
      assert 0xF0 <= bytes[0];
    }
  }

  lemma Utf8Bytes(c: char)
    ensures |Utf8(c)| == CharBytes(c) && forall byte :: byte in Utf8(c) ==> 0 <= byte < 256
  {
  }

  /** The size of a text is the number of bytes of its encoding, and no other text has that. */
  lemma {:induction false} ByteLenExactly(s: string)
    ensures ByteLen(s) == |Encoded(s)| && forall byte :: byte in Encoded(s) ==> 0 <= byte < 256
    ensures forall other :: Encoded(other) == Encoded(s) ==> other == s
  {
    hide Utf8;
    if s != "" {
      Utf8Bytes(s[0]);
      ByteLenExactly(s[1..]);
    }
    forall other | Encoded(other) == Encoded(s)
      ensures other == s
    {
      ReadBack(s, other);
    }
  }

  lemma {:induction false} ReadBack(s: string, other: string)
    requires Encoded(s) == Encoded(other)
    ensures s == other
  {
    hide Utf8, FirstOf;
    if s != "" {
      Utf8Bytes(s[0]);
    }
    if other != "" {
      Utf8Bytes(other[0]);
    }
    if s != "" && other != "" {
      var a, b, fill := Encoded(s[1..]), Encoded(other[1..]), [0, 0, 0];
      Utf8Reads(s[0], a + fill);
      Utf8Reads(other[0], b + fill);
      assert Utf8(s[0]) + (a + fill) == Encoded(s) + fill == Utf8(other[0]) + (b + fill);
      assert s[0] == other[0];
      assert (Utf8(s[0]) + a)[|Utf8(s[0])|..] == a && (Utf8(s[0]) + b)[|Utf8(s[0])|..] == b;
      ReadBack(s[1..], other[1..]);
      assert s == [s[0]] + s[1..] && other == [other[0]] + other[1..];
    }
  }

  predicate IsSuffix(tail: string, record: string) {
    |tail| <= |record| && record[|record| - |tail|..] == tail
  }

  lemma SuffixExtends(tail: string, record: string, more: string)
    requires IsSuffix(tail, record)
    ensures IsSuffix(tail + more, record + more)
    ensures ByteLen(tail) <= ByteLen(record)
  {
  }

  // ----- What is emitted for a record -----

  datatype Emission<+E> = Oversized | Decoded(event: E)

  function Plain<E>(decode: string -> seq<E>, line: string): seq<Emission<E>> {
    seq(|decode(line)|, i requires 0 <= i < |decode(line)| => Decoded(decode(line)[i]))
  }

  function Bounded<E>(decode: string -> seq<E>, line: string): seq<Emission<E>> {
    if ByteLen(line) > LIMIT then [Oversized] else Plain(decode, line)
  }

  predicate Errors<E>(emissions: seq<Emission<E>>) {
    forall i :: 0 <= i < |emissions| ==> emissions[i].Oversized?
  }

  /** At least one error, then possibly what a shorter end of the record decodes to. */
  ghost predicate Rejected<E>(decode: string -> seq<E>, record: string, emissions: seq<Emission<E>>, errors: nat) {
    && 1 <= errors <= |emissions| && Errors(emissions[..errors])
    && (emissions[errors..] == [] ||
        exists tail :: IsSuffix(tail, record) && tail != record && emissions[errors..] == Plain(decode, tail))
  }

  /** A record within the limit is decoded, and only that; an oversized one is rejected. */
  ghost predicate Outcome<E>(decode: string -> seq<E>, record: string, emissions: seq<Emission<E>>) {
    if ByteLen(record) <= LIMIT then emissions == Plain(decode, record)
    else exists errors :: Rejected(decode, record, emissions, errors)
  }

  /** The state of the record being received: `held` is what the buffer still has of it. */
  ghost predicate Receiving<E>(record: string, held: string, emissions: seq<Emission<E>>) {
    && IsSuffix(held, record)
    && ByteLen(held) <= LIMIT
    && Errors(emissions)
    && (if emissions == [] then held == record else ByteLen(record) > LIMIT)
  }

  lemma RecordEnds<E>(decode: string -> seq<E>, record: string, held: string, emissions: seq<Emission<E>>, rest: string)
    requires Receiving(record, held, emissions)
    ensures Outcome(decode, record + rest, emissions + Bounded(decode, held + rest))
    ensures ByteLen(record + rest) > LIMIT ==>
      (Errors(emissions + Bounded(decode, held + rest)) <==> ByteLen(held + rest) > LIMIT || decode(held + rest) == [])
  {
    var whole, line := record + rest, held + rest;
    var all := emissions + Bounded(decode, line);
    SuffixExtends(held, record, rest);
    ByteLenAppend(record, rest);
    if emissions == [] {
      assert all == Bounded(decode, whole);
      if ByteLen(whole) > LIMIT {
        assert Rejected(decode, whole, all, 1);
      }
    } else if ByteLen(line) > LIMIT {
      assert all[..|all|] == all;
      assert Rejected(decode, whole, all, |all|);
    } else {
      assert all[..|emissions|] == emissions && all[|emissions|..] == Plain(decode, line);
      assert line != whole;
      assert Rejected(decode, whole, all, |emissions|);
      assert decode(line) == [] || all[|emissions|] == Decoded(decode(line)[0]);
    }
  }

  lemma RecordGoesOn<E>(record: string, held: string, emissions: seq<Emission<E>>, more: string)
    requires Receiving(record, held, emissions)
    ensures ByteLen(held + more) <= LIMIT ==> Receiving(record + more, held + more, emissions)
    ensures ByteLen(held + more) > LIMIT ==> Receiving(record + more, "", emissions + [Oversized])
  {
    SuffixExtends(held, record, more);
    SuffixExtends(held + more, record + more, "");
    ByteLenAppend(record, more);
  }

  /** More of the last list. */
  function Grown<T>(before: seq<seq<T>>, more: seq<T>): seq<seq<T>>
    requires |before| > 0
  {
    Init(before) + [Last(before) + more]
  }

  lemma SeamOne<T>(before: seq<seq<T>>, part: seq<T>)
    requires |before| > 0
    ensures Seam(before, [part]) == Grown(before, part)
  {
  }

  lemma SeamNext<T>(before: seq<seq<T>>, parts: seq<seq<T>>, i: nat)
    requires |before| > 0 && 1 <= i < |parts|
    ensures |Seam(before, parts[..i])| > 0
    ensures Grown(Seam(before, parts[..i]) + [[]], parts[i]) == Seam(before, parts[..i + 1])
  {
    var open := Seam(before, parts[..i]) + [[]];
    assert Last(open) + parts[i] == parts[i];
    assert parts[..i + 1][1..] == parts[..i][1..] + [parts[i]];
  }

  // ----- The events among the emissions -----

  function EventsOf<E>(emissions: seq<Emission<E>>): seq<E> {
    if emissions == [] then []
    else
      match emissions[0]
      case Oversized => EventsOf(emissions[1..])
      case Decoded(event) => [event] + EventsOf(emissions[1..])
  }

  lemma {:induction false} EventsAppend<E>(a: seq<Emission<E>>, b: seq<Emission<E>>)
    ensures EventsOf(a + b) == EventsOf(a) + EventsOf(b)
  {
    if a == [] {
      assert a + b == b;
    } else {
      EventsAppend(a[1..], b);
      assert (a + b)[1..] == a[1..] + b;
    }
  }

  lemma {:induction false} DecodedEvents<E>(events: seq<E>, emissions: seq<Emission<E>>)
    requires |emissions| == |events| && forall i :: 0 <= i < |events| ==> emissions[i] == Decoded(events[i])
    ensures EventsOf(emissions) == events
  {
    if events != [] {
      DecodedEvents(events[1..], emissions[1..]);
    }
  }

  /** A line yields the events it decodes to, all of them and in order, or none if it is too long. */
  lemma LineYields<E>(decode: string -> seq<E>, line: string)
    ensures EventsOf(Bounded(decode, line)) == if ByteLen(line) > LIMIT then [] else decode(line)
  {
    if ByteLen(line) <= LIMIT {
      DecodedEvents(decode(line), Plain(decode, line));
    }
  }

  lemma {:induction false} ErrorsYieldNothing<E>(emissions: seq<Emission<E>>)
    requires Errors(emissions)
    ensures EventsOf(emissions) == []
  {
    if emissions != [] {
      ErrorsYieldNothing(emissions[1..]);
    }
  }

  // ----- A record and the pieces it arrives in -----

  /** What the buffer holds of a record of which `pieces` have arrived. */
  function Held(pieces: seq<string>): string {
    if pieces == [] then ""
    else
      var text := Held(Init(pieces)) + Last(pieces);
      if ByteLen(text) > LIMIT then "" else text
  }

  /** One error each time the buffer was given up. */
  function Dropped<E>(pieces: seq<string>): seq<Emission<E>> {
    if pieces == [] then []
    else Dropped<E>(Init(pieces)) + if ByteLen(Held(Init(pieces)) + Last(pieces)) > LIMIT then [Oversized] else []
  }

  /** The line that is decoded when the last piece completes the record. */
  function LineOf(pieces: seq<string>): string
    requires pieces != []
  {
    Held(Init(pieces)) + Last(pieces)
  }

  /** All that comes out for a completed record. */
  function Emissions<E>(decode: string -> seq<E>, pieces: seq<string>): seq<Emission<E>>
    requires pieces != []
  {
    Dropped<E>(Init(pieces)) + Bounded(decode, LineOf(pieces))
  }

  lemma PiecesOn<E>(decode: string -> seq<E>, pieces: seq<string>, more: string)
    ensures var longer := pieces + [more];
      && Held(longer) == (if ByteLen(Held(pieces) + more) > LIMIT then "" else Held(pieces) + more)
      && Dropped<E>(longer) == Dropped<E>(pieces) + (if ByteLen(Held(pieces) + more) > LIMIT then [Oversized] else [])
      && Emissions(decode, longer) == Dropped<E>(pieces) + Bounded(decode, Held(pieces) + more)
      && Flatten(longer) == Flatten(pieces) + more
  {
    assert Init(pieces + [more]) == pieces && Last(pieces + [more]) == more;
    FlattenAppend(pieces, [more]);
    FlattenSingle(more);
  }

  lemma {:induction false} DroppedErrors<E>(pieces: seq<string>)
    ensures Errors(Dropped<E>(pieces))
  {
    if pieces != [] {
      DroppedErrors<E>(Init(pieces));
    }
  }

  /** A record still yields events, whatever its size, exactly when the line left of it is within
      the limit and decodes to some. */
  lemma EventsExactly<E>(decode: string -> seq<E>, pieces: seq<string>)
    requires pieces != []
    ensures Errors(Emissions(decode, pieces)) <==> ByteLen(LineOf(pieces)) > LIMIT || decode(LineOf(pieces)) == []
  {
    var dropped, line := Dropped<E>(Init(pieces)), LineOf(pieces);
    DroppedErrors<E>(Init(pieces));
    if ByteLen(line) <= LIMIT && decode(line) != [] {
      assert (dropped + Plain(decode, line))[|dropped|] == Decoded(decode(line)[0]);
    }
  }

  /** So does a record, of the line that is left of it. */
  lemma RecordYields<E>(decode: string -> seq<E>, pieces: seq<string>)
    requires pieces != []
    ensures EventsOf(Emissions(decode, pieces)) == if ByteLen(LineOf(pieces)) > LIMIT then [] else decode(LineOf(pieces))
  {
    var dropped := Dropped<E>(Init(pieces));
    DroppedErrors<E>(Init(pieces));
    ErrorsYieldNothing(dropped);
    LineYields(decode, LineOf(pieces));
    EventsAppend(dropped, Bounded(decode, LineOf(pieces)));
  }

  function Singles(parts: seq<string>): seq<seq<string>> {
    seq(|parts|, i requires 0 <= i < |parts| => [parts[i]])
  }

  /** The buffer never holds more than the limit, and what has come out is as it should be. */
  lemma {:induction false} PiecesReceived<E>(pieces: seq<string>)
    ensures Receiving(Flatten(pieces), Held(pieces), Dropped<E>(pieces))
  {
    hide Flatten;
    if pieces == [] {
      FlattenNone<char>();
    } else {
      var earlier, last := Init(pieces), Last(pieces);
      PiecesReceived<E>(earlier);
      RecordGoesOn(Flatten(earlier), Held(earlier), Dropped<E>(earlier), last);
      assert pieces == earlier + [last];
      PiecesOn(NoEvents<E>, earlier, last);
      assert Dropped<E>(earlier) + [] == Dropped<E>(earlier);
    }
  }

  function NoEvents<E>(line: string): seq<E> { [] }

  /** However a record is cut, it has its own outcome. */
  lemma PiecesOutcome<E>(decode: string -> seq<E>, pieces: seq<string>)
    requires pieces != []
    ensures Outcome(decode, Flatten(pieces), Emissions(decode, pieces))
  {
    hide Outcome, Bounded, Flatten, Held, Dropped;
    var earlier, last := Init(pieces), Last(pieces);
    PiecesReceived<E>(earlier);
    RecordEnds(decode, Flatten(earlier), Held(earlier), Dropped<E>(earlier), last);
    assert pieces == earlier + [last];
    PiecesOn(decode, earlier, last);
  }

  // ----- Records in their pieces -----

  function Texts(pieces: seq<seq<string>>): seq<string> {
    seq(|pieces|, i requires 0 <= i < |pieces| => Flatten(pieces[i]))
  }

  lemma SeamTexts(before: seq<seq<string>>, parts: seq<string>)
    requires |before| > 0 && |parts| > 0
    ensures Texts(Seam(before, Singles(parts))) == Seam(Texts(before), parts)
  {
    hide Flatten;
    var pieces, texts := Seam(before, Singles(parts)), Seam(Texts(before), parts);
    var n := |before| - 1;
    FlattenAppend(before[n], [parts[0]]);
    forall i | 0 <= i < |parts|
      ensures Flatten([parts[i]]) == parts[i]
    {
      FlattenSingle(parts[i]);
    }
    forall i | 0 <= i < |pieces|
      ensures Flatten(pieces[i]) == texts[i]
    {
      if i > n {
        assert pieces[i] == [parts[i - n]] && texts[i] == parts[i - n];
      }
    }
  }

  class Bridge<E> {
    const decode: string -> seq<E>
    var buffer: string
    var emitted: seq<Emission<E>>

    /** All text received, the pieces in which each record of it has arrived, what was emitted for
        each finished record, and for the open one. */
    ghost var received: string
    ghost var pieces: seq<seq<string>>
    ghost var outcomes: seq<seq<Emission<E>>>
    ghost var partial: seq<Emission<E>>

    /** The emissions are those of the records that have arrived so, of which the last is open. */
    ghost predicate Tracks(arrived: seq<seq<string>>)
      reads this`emitted, this`outcomes, this`partial
    {
      && |outcomes| + 1 == |arrived|
      && (forall i :: 0 <= i < |outcomes| ==> arrived[i] != [] && outcomes[i] == Emissions(decode, arrived[i]))
      && partial == Dropped<E>(Last(arrived))
      && emitted == Flatten(outcomes) + partial
    }

    ghost predicate Valid()
      reads this
    {
      && Tracks(pieces) && Texts(pieces) == Split(received, '\n')
      && buffer == Held(Last(pieces)) && ByteLen(buffer) <= LIMIT
    }

    constructor (decode: string -> seq<E>)
      ensures Valid() && this.decode == decode && received == "" && emitted == [] && pieces == [[]]
    {
      this.decode := decode;
      buffer, emitted, received, outcomes, partial, pieces := "", [], "", [], [], [[]];
    }

    method DecodeBoundedLine(line: string)
      modifies this`emitted
      ensures emitted == old(emitted) + Bounded(decode, line)
    {
      if ByteLen(line) > LIMIT {
        emitted := emitted + [Oversized];
      } else {
        emitted := emitted + Plain(decode, line);
      }
    }

    method DiscardOversizedPartialRecord()
      modifies this`emitted, this`buffer
      ensures if ByteLen(old(buffer)) <= LIMIT then buffer == old(buffer) && emitted == old(emitted)
              else buffer == "" && emitted == old(emitted) + [Oversized]
    {
      if ByteLen(buffer) <= LIMIT {
        return;
      }
      emitted := emitted + [Oversized];
      buffer := "";
    }

    /** The line that completes the open record. */
    method EndRecord(line: string, ghost arrived: seq<seq<string>>, ghost rest: string)
      requires Tracks(arrived) && line == Held(Last(arrived)) + rest
      modifies this`emitted, this`outcomes, this`partial
      ensures Tracks(Grown(arrived, [rest]) + [[]])
    {
      DecodeBoundedLine(line);
      CloseRecord(arrived, rest);
    }

    /** The bookkeeping for a record whose emissions are out. */
    ghost method CloseRecord(arrived: seq<seq<string>>, rest: string)
      requires |outcomes| + 1 == |arrived| && partial == Dropped<E>(Last(arrived))
      requires forall i :: 0 <= i < |outcomes| ==> arrived[i] != [] && outcomes[i] == Emissions(decode, arrived[i])
      requires emitted == Flatten(outcomes) + partial + Bounded(decode, Held(Last(arrived)) + rest)
      modifies this`outcomes, this`partial
      ensures Tracks(Grown(arrived, [rest]) + [[]])
    {
      hide Bounded, Held, Emissions, Flatten;
      var last := Emissions(decode, Last(arrived) + [rest]);
      PiecesOn(decode, Last(arrived), rest);
      FlattenAppend(outcomes, [last]);
      FlattenSingle(last);
      assert Flatten(outcomes) + partial + Bounded(decode, Held(Last(arrived)) + rest) == Flatten(outcomes) + last;
      outcomes := outcomes + [last];
      partial := [];
      assert Flatten(outcomes) + [] == Flatten(outcomes);
    }

    /** More of the open record, which is dropped if it is now too long. */
    method GrowRecord(text: string, ghost arrived: seq<seq<string>>, ghost more: string)
      requires Tracks(arrived) && text == Held(Last(arrived)) + more
      modifies this`emitted, this`partial, this`buffer
      ensures Tracks(Grown(arrived, [more])) && buffer == Held(Last(Grown(arrived, [more]))) && ByteLen(buffer) <= LIMIT
    {
      hide Held, Dropped, Emissions, Flatten;
      PiecesOn(decode, Last(arrived), more);
      assert partial + [] == partial;
      buffer := text;
      if ByteLen(buffer) > LIMIT {
        assert Flatten(outcomes) + partial + [Oversized] == Flatten(outcomes) + (partial + [Oversized]);
        partial := partial + [Oversized];
      }
      DiscardOversizedPartialRecord();
    }

    /** One chunk. Between calls the buffer stays within the limit (`Valid`). */
    method Feed(stdout: bool, text: string)
      requires Valid()
      modifies this
      ensures Valid()
      ensures received == if stdout then old(received) + text else old(received)
      ensures pieces == Piece(old(pieces), Chunk(stdout, text))
    {
      hide Seam, Grown, Split, Texts, Held, Dropped, Emissions, Flatten;
      if !stdout || text == "" {
        assert received + "" == received;
        return;
      }
      var parts := Split(text, '\n');
      SplitAppend(received, text, '\n');
      SeamTexts(pieces, parts);
      if |parts| == 1 {
        SplitUncut(text, '\n');
        SeamOne(pieces, [text]);
        assert Singles(parts) == [[text]];
        GrowRecord(buffer + text, pieces, text);
      } else {
        FeedLines(parts);
      }
      pieces := Seam(pieces, Singles(parts));
      received := received + text;
    }

    /** A chunk with at least one newline. */
    method FeedLines(parts: seq<string>)
      requires |pieces| > 0 && Tracks(pieces) && buffer == Held(Last(pieces)) && |parts| > 1
      modifies this`emitted, this`outcomes, this`partial, this`buffer
      ensures var arrived := Seam(pieces, Singles(parts));
        Tracks(arrived) && buffer == Held(Last(arrived)) && ByteLen(buffer) <= LIMIT
    {
      ghost var singles := Singles(parts);
      assert |singles| == |parts| && forall i :: 0 <= i < |parts| ==> singles[i] == [parts[i]];
      hide Tracks, Seam, Grown, Singles, Held;
      NothingHeld();
      SeamOne(pieces, singles[0]);
      assert singles[..1] == [singles[0]];
      EndRecord(buffer + parts[0], pieces, parts[0]);
      EndWhole(parts, singles);
      var last := |parts| - 1;
      SeamNext(pieces, singles, last);
      assert singles[..|parts|] == singles && "" + parts[last] == parts[last];
      GrowRecord(parts[last], Seam(pieces, singles[..last]) + [[]], parts[last]);
    }

    /** The lines between the first and the last newline of a chunk. */
    method EndWhole(parts: seq<string>, ghost singles: seq<seq<string>>)
      requires |pieces| > 0 && |parts| > 1 && singles == Singles(parts) && Tracks(Seam(pieces, singles[..1]) + [[]])
      modifies this`emitted, this`outcomes, this`partial
      ensures Tracks(Seam(pieces, singles[..|parts| - 1]) + [[]])
    {
      hide Tracks, Seam, Grown, Held;
      NothingHeld();
      for i := 1 to |parts| - 1
        invariant Tracks(Seam(pieces, singles[..i]) + [[]])
      {
        SeamNext(pieces, singles, i);
        assert "" + parts[i] == parts[i];
        EndRecord(parts[i], Seam(pieces, singles[..i]) + [[]], parts[i]);
      }
    }

    /** Decode a final record that has no newline. Blank text is not JSON. */
    method Finish()
      requires Valid() && forall s :: Strip(s) == "" ==> decode(s) == []
      modifies this
      ensures buffer == "" && received == old(received) && pieces == Grown(old(pieces), [""])
      ensures |outcomes| == |pieces| && emitted == Flatten(outcomes)
      ensures forall i :: 0 <= i < |pieces| ==> pieces[i] != [] && outcomes[i] == Emissions(decode, pieces[i])
    {
      hide Held, Emissions, Flatten, Texts, Dropped;
      assert buffer + "" == buffer;
      if Strip(buffer) != "" {
        EndRecord(buffer, pieces, "");
      } else {
        assert Bounded(decode, buffer) == [];
        assert emitted + Bounded(decode, buffer) == emitted;
        CloseRecord(pieces, "");
      }
      NoPieces<E>();
      assert Flatten(outcomes) + [] == Flatten(outcomes);
      pieces := Grown(pieces, [""]);
      buffer := "";
    }
  }

  lemma NothingHeld()
    ensures Held([]) == ""
  {
  }

  lemma NoPieces<E>()
    ensures Dropped<E>([]) == []
  {
  }

  datatype Chunk = Chunk(stdout: bool, text: string)

  /** A chunk of stdout brings a piece of the open record, and one of each record it begins. */
  function Piece(before: seq<seq<string>>, chunk: Chunk): seq<seq<string>>
    requires |before| > 0
  {
    if chunk.stdout && chunk.text != "" then Seam(before, Singles(Split(chunk.text, '\n'))) else before
  }

  /** The pieces of each record of a stream that is cut into chunks, the last still open. */
  function Pieces(chunks: seq<Chunk>): (pieces: seq<seq<string>>)
    ensures |pieces| > 0
  {
    if chunks == [] then [[]] else Piece(Pieces(Init(chunks)), Last(chunks))
  }

  /** The same when the stream has ended: an empty piece completes the last record. */
  function Completed(chunks: seq<Chunk>): seq<seq<string>> {
    Grown(Pieces(chunks), [""])
  }

  function Stdout(chunks: seq<Chunk>): string {
    if chunks == [] then ""
    else Stdout(Init(chunks)) + if Last(chunks).stdout then Last(chunks).text else ""
  }

  function PlainAll<E>(decode: string -> seq<E>, records: seq<string>): seq<Emission<E>> {
    if records == [] then [] else Plain(decode, records[0]) + PlainAll(decode, records[1..])
  }

  lemma {:induction false} AllPlain<E>(decode: string -> seq<E>, records: seq<string>, outcomes: seq<seq<Emission<E>>>)
    requires |outcomes| == |records|
    requires forall i :: 0 <= i < |records| ==> ByteLen(records[i]) <= LIMIT && Outcome(decode, records[i], outcomes[i])
    ensures Flatten(outcomes) == PlainAll(decode, records)
  {
    if records != [] {
      AllPlain(decode, records[1..], outcomes[1..]);
    }
  }

  /** A whole stream, however it is cut into chunks: each record of the text has its own
      outcome, which events it still yields if it is oversized depends on what is left of it at
      the last cut, and if all are within the limit the events are those of the split text. */
  method DecodeStream<E>(decode: string -> seq<E>, chunks: seq<Chunk>)
    returns (emitted: seq<Emission<E>>, ghost outcomes: seq<seq<Emission<E>>>)
    requires forall s :: Strip(s) == "" ==> decode(s) == []
    ensures var records, pieces := Split(Stdout(chunks), '\n'), Completed(chunks);
      && |outcomes| == |pieces| == |records| && emitted == Flatten(outcomes)
      && forall i :: 0 <= i < |records| ==>
           && records[i] == Flatten(pieces[i]) && pieces[i] != [] && outcomes[i] == Emissions(decode, pieces[i])
           && Outcome(decode, records[i], outcomes[i])
           && (Errors(outcomes[i]) <==> ByteLen(LineOf(pieces[i])) > LIMIT || decode(LineOf(pieces[i])) == [])
           && EventsOf(outcomes[i]) == (if ByteLen(LineOf(pieces[i])) > LIMIT then [] else decode(LineOf(pieces[i])))
    ensures var records := Split(Stdout(chunks), '\n');
      (forall i :: 0 <= i < |records| ==> ByteLen(records[i]) <= LIMIT) ==> emitted == PlainAll(decode, records)
  {
    hide Held, Dropped, Emissions, Flatten, Outcome, LineOf, Errors, EventsOf, Receiving, Piece, PlainAll, Grown, Texts;
    var bridge := new Bridge<E>(decode);
    for i := 0 to |chunks|
      invariant bridge.Valid() && bridge.decode == decode
      invariant bridge.received == Stdout(chunks[..i]) && bridge.pieces == Pieces(chunks[..i])
    {
      assert Init(chunks[..i + 1]) == chunks[..i];
      bridge.Feed(chunks[i].stdout, chunks[i].text);
      assert Stdout(chunks[..i]) + "" == Stdout(chunks[..i]);
    }
    assert chunks[..|chunks|] == chunks;
    CompletedTexts(bridge.pieces);
    bridge.Finish();
    emitted, outcomes := bridge.emitted, bridge.outcomes;
    var records := Split(Stdout(chunks), '\n');
    ghost var pieces := Completed(chunks);
    forall i | 0 <= i < |records|
      ensures Outcome(decode, records[i], outcomes[i])
      ensures Errors(outcomes[i]) <==> ByteLen(LineOf(pieces[i])) > LIMIT || decode(LineOf(pieces[i])) == []
      ensures EventsOf(outcomes[i]) == if ByteLen(LineOf(pieces[i])) > LIMIT then [] else decode(LineOf(pieces[i]))
    {
      RecordYields(decode, pieces[i]);
      PiecesOutcome(decode, pieces[i]);
      EventsExactly(decode, pieces[i]);
    }
    if forall i :: 0 <= i < |records| ==> ByteLen(records[i]) <= LIMIT {
      AllPlain(decode, records, outcomes);
    }
  }

  lemma CompletedTexts(pieces: seq<seq<string>>)
    requires |pieces| > 0
    ensures var completed := Grown(pieces, [""]);
      |completed| == |pieces| == |Texts(pieces)| && forall i :: 0 <= i < |pieces| ==> Texts(pieces)[i] == Flatten(completed[i])
  {
    hide Flatten;
    var last := pieces[|pieces| - 1];
    FlattenAppend(last, [""]);
    FlattenSingle<char>("");
    assert Flatten(last) + "" == Flatten(last);
  }
}
