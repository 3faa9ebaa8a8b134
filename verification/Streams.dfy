/**
 The SDK's readers of server-sent events, for OpenAI and for Anthropic, and the channel between a
 reader and the caller. An event's JSON is decoded by a function the readers are given.
 */
module Streams {
  import opened Wrappers

  const DATA := "data: "
  const EVENT := "event: "
  const DONE := "[DONE]"

  datatype Reading<E> = Reading(events: seq<E>, content: string, failed: bool)

  /** The payloads of the data lines, in order. */
  function Payloads(lines: seq<string>): seq<string> {
    if lines == [] then []
    else if DATA <= lines[0] then [lines[0][|DATA|..]] + Payloads(lines[1..])
    else Payloads(lines[1..])
  }

  /** The decoded payloads up to the first that does not decode, and the texts they carry. */
  function Decoded<E>(payloads: seq<string>, decode: string -> Option<E>, text: E -> string): Reading<E> {
    if payloads == [] then Reading([], "", false)
    else
      var event := decode(payloads[0]);
      if event.None? then Reading([], "", true)
      else
        var rest := Decoded(payloads[1..], decode, text);
        Reading([event.value] + rest.events, text(event.value) + rest.content, rest.failed)
  }

  function NonEmpty(payloads: seq<string>): seq<string> {
    if payloads == [] then []
    else if payloads[0] == "" then NonEmpty(payloads[1..])
    else [payloads[0]] + NonEmpty(payloads[1..])
  }

  function UpToDone(payloads: seq<string>): seq<string> {
    if payloads == [] || payloads[0] == DONE then [] else [payloads[0]] + UpToDone(payloads[1..])
  }

  function Content<E>(events: seq<E>, text: E -> string): string {
    if events == [] then "" else text(events[0]) + Content(events[1..], text)
  }

  /** A reading whose lines may have run out because the scanner failed. */
  function Scanned<E>(r: Reading<E>, scanError: bool): Reading<E> {
    r.(failed := r.failed || scanError)
  }

  /**
   A reading cut short because the caller cancelled while the event of that index was being sent: it is not
   sent, but its text has been added.
   */
  function Cancelled<E>(r: Reading<E>, cancelAt: Option<nat>, text: E -> string): Reading<E> {
    match cancelAt
    case Some(k) =>
      if k < |r.events| then Reading(r.events[..k], Content(r.events[..k + 1], text), true) else r
    case None => r
  }

  lemma {:induction false} ContentOneMore<E>(events: seq<E>, event: E, text: E -> string)
    ensures Content(events + [event], text) == Content(events, text) + text(event)
  {
    if events == [] {
      assert [event][1..] == [] && [] + [event] == [event];
    } else {
      assert (events + [event])[1..] == events[1..] + [event];
      ContentOneMore(events[1..], event, text);
    }
  }

  /** The reading the OpenAI reader makes of the lines it scans. */
  function OpenAIReading<E>(lines: seq<string>, scanError: bool, decode: string -> Option<E>,
      text: E -> string): Reading<E> {
    Scanned(Decoded(UpToDone(Payloads(lines)), decode, text), scanError && DONE !in Payloads(lines))
  }

  /** The reading the Anthropic reader makes of the lines it scans. */
  function AnthropicReading<E>(lines: seq<string>, scanError: bool, decode: string -> Option<E>,
      text: E -> string): Reading<E> {
    Scanned(Decoded(NonEmpty(Payloads(lines)), decode, text), scanError)
  }

  /** A reading continued by what the rest of the lines yield. */
  function Then<E>(read: Reading<E>, rest: Reading<E>): Reading<E> {
    Reading(read.events + rest.events, read.content + rest.content, rest.failed)
  }

  /** A reader has sent some events and collected their text; together with `rest` that makes its whole reading. */
  ghost predicate ReadSoFar<E>(all: Reading<E>, sent: seq<E>, content: string, rest: Reading<E>, cancelAt: Option<nat>,
                               text: E -> string)
  {
    && Then(Reading(sent, content, false), rest) == all
    && content == Content(sent, text)
    && (cancelAt.Some? ==> |sent| <= cancelAt.value)
  }

  /** A reading that begins with this event. */
  function Before<E>(event: E, rest: Reading<E>, text: E -> string): Reading<E> {
    Reading([event] + rest.events, text(event) + rest.content, rest.failed)
  }

  lemma NothingRead<E>(all: Reading<E>, cancelAt: Option<nat>, text: E -> string)
    ensures ReadSoFar(all, [], "", all, cancelAt, text)
  {
    assert [] + all.events == all.events && "" + all.content == all.content;
  }

  lemma SendOneMore<E>(all: Reading<E>, sent: seq<E>, content: string, event: E, rest: Reading<E>,
      cancelAt: Option<nat>,
                       text: E -> string)
    requires ReadSoFar(all, sent, content, Before(event, rest, text), cancelAt, text) && cancelAt != Some(|sent|)
    ensures ReadSoFar(all, sent + [event], content + text(event), rest, cancelAt, text)
  {
    ContentOneMore(sent, event, text);
    assert sent + ([event] + rest.events) == sent + [event] + rest.events;
    assert content + (text(event) + rest.content) == content + text(event) + rest.content;
  }

  lemma CutOff<E>(all: Reading<E>, sent: seq<E>, content: string, event: E, rest: Reading<E>, cancelAt: Option<nat>,
                  text: E -> string, scanError: bool)
    requires ReadSoFar(all, sent, content, Before(event, rest, text), cancelAt, text) && cancelAt == Some(|sent|)
    ensures Cancelled(Scanned(all, scanError), cancelAt, text) == Reading(sent, content + text(event), true)
  {
    ContentOneMore(sent, event, text);
    assert all.events[..|sent|] == sent && all.events[..|sent| + 1] == sent + [event];
  }

  lemma ReadToEnd<E>(all: Reading<E>, sent: seq<E>, content: string, rest: Reading<E>, cancelAt: Option<nat>,
                     text: E -> string, scanError: bool)
    requires ReadSoFar(all, sent, content, rest, cancelAt, text) && rest.events == [] && rest.content == ""
    ensures Cancelled(Scanned(all, scanError), cancelAt, text) == Reading(sent, content, rest.failed || scanError)
  {
    assert sent + [] == sent && content + "" == content;
  }

  lemma NotData(line: string)
    requires line == "" || ":" <= line || EVENT <= line
    ensures !(DATA <= line)
  {
    if line != "" {
      assert line[0] == if ":" <= line then ':' else 'e';
    }
  }

  lemma PayloadsFrom(lines: seq<string>, i: nat)
    requires i < |lines|
    ensures Payloads(lines[i..]) ==
            (if DATA <= lines[i] then [lines[i][|DATA|..]] else []) + Payloads(lines[i + 1..])
  {
    assert lines[i..][0] == lines[i] && lines[i..][1..] == lines[i + 1..];
  }

  /**
   The OpenAI reader: every data line is an event, until one says that the stream is done. The scanner may
   fail after the lines it gave, and the caller may cancel while any event is being sent.
   */
  method ReadOpenAIStream<E>(lines: seq<string>, scanError: bool, cancelAt: Option<nat>,
      decode: string -> Option<E>, text: E -> string)
    returns (sent: seq<E>, content: string, failed: bool)
    ensures Reading(sent, content, failed) == Cancelled(OpenAIReading(lines, scanError, decode, text), cancelAt, text)
  {
    hide ReadSoFar, Cancelled, Scanned, Then, Content;
    sent, content, failed := [], "", false;
    var i, exhausted := 0, true;
    ghost var all := Decoded(UpToDone(Payloads(lines)), decode, text);
    NothingRead(all, cancelAt, text);
    ghost var ahead := Payloads(lines);
    ghost var rest := all;
    while i < |lines|
      invariant i <= |lines| && !failed && exhausted
      invariant ahead == Payloads(lines[i..])
      invariant rest == Decoded(UpToDone(ahead), decode, text)
      invariant ReadSoFar(all, sent, content, rest, cancelAt, text)
      invariant DONE in Payloads(lines) <==> DONE in ahead
    {
      var line := lines[i];
      PayloadsFrom(lines, i);
      i := i + 1;
      if line == "" || ":" <= line {
        NotData(line);
        continue;
      }
      if !(DATA <= line) {
        continue;
      }
      var data := line[|DATA|..];
      if data == DONE {
        rest := Reading([], "", false);
        exhausted := false;
        break;
      }
      var event := decode(data);
      ghost var collected := content;
      if event.None? {
        ReadToEnd(all, sent, content, rest, cancelAt, text, scanError && DONE !in Payloads(lines));
        failed := true;
        return;
      }
      ahead := ahead[1..];
      rest := Decoded(UpToDone(ahead), decode, text);
      content := content + text(event.value);
      if cancelAt == Some(|sent|) {
        CutOff(all, sent, collected, event.value, rest, cancelAt, text, scanError && DONE !in Payloads(lines));
        failed := true;
        return;
      }
      SendOneMore(all, sent, collected, event.value, rest, cancelAt, text);
      sent := sent + [event.value];
    }
    ReadToEnd(all, sent, content, rest, cancelAt, text, scanError && DONE !in Payloads(lines));
    failed := exhausted && scanError;
  }

  /**
   The Anthropic reader: an event line takes the line after it as its data, and a data line stands for
   itself. However event lines and others are mixed, this reads exactly the data lines that are not empty.
   */
  method ReadAnthropicStream<E>(lines: seq<string>, scanError: bool, cancelAt: Option<nat>,
      decode: string -> Option<E>, text: E -> string)
    returns (sent: seq<E>, content: string, failed: bool)
    ensures Reading(sent, content, failed) == Cancelled(AnthropicReading(lines, scanError, decode, text),
        cancelAt, text)
  {
    hide ReadSoFar, Cancelled, Scanned, Then, Content;
    sent, content, failed := [], "", false;
    var i := 0;
    ghost var all := Decoded(NonEmpty(Payloads(lines)), decode, text);
    NothingRead(all, cancelAt, text);
    ghost var ahead := Payloads(lines);
    ghost var rest := all;
    while i < |lines|
      invariant i <= |lines| && !failed
      invariant ahead == Payloads(lines[i..])
      invariant rest == Decoded(NonEmpty(ahead), decode, text)
      invariant ReadSoFar(all, sent, content, rest, cancelAt, text)
    {
      var line := lines[i];
      PayloadsFrom(lines, i);
      i := i + 1;
      if line == "" || ":" <= line {
        NotData(line);
        continue;
      }
      if !(EVENT <= line) && !(DATA <= line) {
        continue;
      }
      var eventData := "";
      if EVENT <= line {
        NotData(line);
        if i < |lines| {
          var dataLine := lines[i];
          PayloadsFrom(lines, i);
          if DATA <= dataLine {
            eventData := dataLine[|DATA|..];
            ahead := ahead[1..];
          }
          i := i + 1;
        }
      } else if DATA <= line {
        eventData := line[|DATA|..];
        ahead := ahead[1..];
      }
      if eventData == "" {
        continue;
      }
      var event := decode(eventData);
      ghost var collected := content;
      if event.None? {
        ReadToEnd(all, sent, content, rest, cancelAt, text, scanError);
        failed := true;
        return;
      }
      rest := Decoded(NonEmpty(ahead), decode, text);
      content := content + text(event.value);
      if cancelAt == Some(|sent|) {
        CutOff(all, sent, collected, event.value, rest, cancelAt, text, scanError);
        failed := true;
        return;
      }
      SendOneMore(all, sent, collected, event.value, rest, cancelAt, text);
      sent := sent + [event.value];
    }
    ReadToEnd(all, sent, content, rest, cancelAt, text, scanError);
    failed := scanError;
  }

  // ---------- Rendering ----------

  /** An event as it is sent: lines that are no data, the event line if the event is named, and its data line. */
  datatype Block<E> = Block(filler: seq<string>, name: Option<string>, event: E)

  /** Blank lines, comments and fields other than data. */
  predicate IsFiller(lines: seq<string>) {
    forall line <- lines :: !(DATA <= line)
  }

  function Rendered<E>(blocks: seq<Block<E>>, encode: E -> string): seq<string> {
    if blocks == [] then []
    else
      var b := blocks[0];
      b.filler + (if b.name.Some? then [EVENT + b.name.value] else []) + [DATA + encode(b.event)]
      + Rendered(blocks[1..], encode)
  }

  function Events<E>(blocks: seq<Block<E>>): seq<E> {
    if blocks == [] then [] else [blocks[0].event] + Events(blocks[1..])
  }

  function Encoded<E>(events: seq<E>, encode: E -> string): seq<string> {
    if events == [] then [] else [encode(events[0])] + Encoded(events[1..], encode)
  }

  lemma {:induction false} PayloadsOfConcat(a: seq<string>, b: seq<string>)
    ensures Payloads(a + b) == Payloads(a) + Payloads(b)
  {
    if a == [] {
      assert a + b == b;
    } else {
      assert (a + b)[1..] == a[1..] + b;
      PayloadsOfConcat(a[1..], b);
    }
  }

  lemma {:induction false} FillerHasNoPayloads(lines: seq<string>)
    requires IsFiller(lines)
    ensures Payloads(lines) == []
  {
    if lines != [] {
      assert lines[0] in lines && forall line <- lines[1..] :: line in lines;
      FillerHasNoPayloads(lines[1..]);
    }
  }

  lemma {:induction false} PayloadsOfRendered<E>(blocks: seq<Block<E>>, encode: E -> string)
    requires forall b <- blocks :: IsFiller(b.filler)
    ensures Payloads(Rendered(blocks, encode)) == Encoded(Events(blocks), encode)
  {
    if blocks != [] {
      var b := blocks[0];
      assert b in blocks;
      var named := if b.name.Some? then [EVENT + b.name.value] else [];
      var data := [DATA + encode(b.event)];
      if b.name.Some? {
        assert named[0][0] == 'e';
      }
      FillerHasNoPayloads(b.filler);
      FillerHasNoPayloads(named);
      PayloadsOfConcat(b.filler, named);
      PayloadsOfConcat(b.filler + named, data);
      PayloadsOfConcat(b.filler + named + data, Rendered(blocks[1..], encode));
      assert Payloads(data) == [encode(b.event)];
      PayloadsOfRendered(blocks[1..], encode);
    }
  }

  lemma {:induction false} DecodedEncoded<E(!new)>(events: seq<E>, encode: E -> string,
      decode: string -> Option<E>, text: E -> string)
    requires forall e <- events :: decode(encode(e)) == Some(e)
    ensures Decoded(Encoded(events, encode), decode, text) == Reading(events, Content(events, text), false)
  {
    if events != [] {
      assert events[0] in events;
      DecodedEncoded(events[1..], encode, decode, text);
    }
  }

  lemma {:induction false} EncodedKept<E(!new)>(events: seq<E>, encode: E -> string, after: seq<string>)
    requires forall e <- events :: encode(e) != "" && encode(e) != DONE
    ensures NonEmpty(Encoded(events, encode)) == Encoded(events, encode)
    ensures UpToDone(Encoded(events, encode)) == Encoded(events, encode)
    ensures UpToDone(Encoded(events, encode) + [DONE] + after) == Encoded(events, encode)
  {
    var payloads := Encoded(events, encode);
    if events == [] {
      assert payloads + [DONE] + after == [DONE] + after;
    } else {
      assert events[0] in events;
      EncodedKept(events[1..], encode, after);
      assert (payloads + [DONE] + after)[1..] == Encoded(events[1..], encode) + [DONE] + after;
    }
  }

  /**
   Round trip: rendering any events, with filler and event lines as the sender likes, and reading the
   lines back yields exactly these events, their concatenated text and no error. The OpenAI reader does so
   too when the end is marked, whatever follows the mark.
   */
  lemma ReadingUndoesRendering<E(!new)>(blocks: seq<Block<E>>, encode: E -> string, decode: string -> Option<E>,
                                        text: E -> string, after: seq<string>)
    requires forall b <- blocks :: IsFiller(b.filler)
    requires forall e <- Events(blocks) :: decode(encode(e)) == Some(e) && encode(e) != "" && encode(e) != DONE
    ensures
      var lines, events := Rendered(blocks, encode), Events(blocks);
      var all := Reading(events, Content(events, text), false);
      && Decoded(NonEmpty(Payloads(lines)), decode, text) == all
      && Decoded(UpToDone(Payloads(lines)), decode, text) == all
      && Decoded(UpToDone(Payloads(lines + [DATA + DONE] + after)), decode, text) == all
  {
    var lines := Rendered(blocks, encode);
    PayloadsOfRendered(blocks, encode);
    EncodedKept(Events(blocks), encode, Payloads(after));
    DecodedEncoded(Events(blocks), encode, decode, text);
    PayloadsOfConcat(lines, [DATA + DONE]);
    PayloadsOfConcat(lines + [DATA + DONE], after);
    assert Payloads([DATA + DONE]) == [DONE];
  }

  // ---------- Streams that go wrong ----------

  lemma {:induction false} NonEmptyOfConcat(a: seq<string>, b: seq<string>)
    ensures NonEmpty(a + b) == NonEmpty(a) + NonEmpty(b)
  {
    if a == [] {
      assert a + b == b;
    } else {
      assert (a + b)[1..] == a[1..] + b;
      NonEmptyOfConcat(a[1..], b);
    }
  }

  lemma {:induction false} UpToDoneOfConcat(a: seq<string>, b: seq<string>)
    requires DONE !in a
    ensures UpToDone(a + b) == a + UpToDone(b)
  {
    if a == [] {
      assert a + b == b;
    } else {
      assert (a + b)[1..] == a[1..] + b;
      UpToDoneOfConcat(a[1..], b);
    }
  }

  lemma {:induction false} DecodedUntilBad<E(!new)>(events: seq<E>, encode: E -> string, decode: string -> Option<E>,
                                                    text: E -> string, bad: string, after: seq<string>)
    requires forall e <- events :: decode(encode(e)) == Some(e)
    requires decode(bad).None?
    ensures Decoded(Encoded(events, encode) + ([bad] + after), decode, text)
         == Reading(events, Content(events, text), true)
  {
    var payloads := Encoded(events, encode) + ([bad] + after);
    if events != [] {
      assert events[0] in events && forall e <- events[1..] :: e in events;
      DecodedUntilBad(events[1..], encode, decode, text, bad, after);
      assert payloads[1..] == Encoded(events[1..], encode) + ([bad] + after);
    }
  }

  /**
   A stream with data that does not decode, after any events and whatever follows: both readers send exactly the
   events before it and then fail.
   */
  lemma BadDataFails<E(!new)>(blocks: seq<Block<E>>, encode: E -> string, decode: string -> Option<E>,
                              text: E -> string, bad: string, after: seq<string>, scanError: bool)
    requires forall b <- blocks :: IsFiller(b.filler)
    requires forall e <- Events(blocks) :: decode(encode(e)) == Some(e) && encode(e) != "" && encode(e) != DONE
    requires bad != "" && bad != DONE && decode(bad).None?
    ensures
      var lines, events := Rendered(blocks, encode) + [DATA + bad] + after, Events(blocks);
      && OpenAIReading(lines, scanError, decode, text) == Reading(events, Content(events, text), true)
      && AnthropicReading(lines, scanError, decode, text) == Reading(events, Content(events, text), true)
  {
    var lines := Rendered(blocks, encode);
    PayloadsOfRendered(blocks, encode);
    PayloadsOfConcat(lines, [DATA + bad]);
    PayloadsOfConcat(lines + [DATA + bad], after);
    assert Payloads([DATA + bad]) == [bad];
    assert Payloads(lines + [DATA + bad] + after) == Encoded(Events(blocks), encode) + ([bad] + Payloads(after));
    hide Rendered, Payloads, Decoded, Encoded;
    BadPayloadFails(Events(blocks), encode, decode, text, bad, Payloads(after));
  }

  lemma BadPayloadFails<E(!new)>(events: seq<E>, encode: E -> string, decode: string -> Option<E>,
                                 text: E -> string, bad: string, after: seq<string>)
    requires forall e <- events :: decode(encode(e)) == Some(e) && encode(e) != "" && encode(e) != DONE
    requires bad != "" && bad != DONE && decode(bad).None?
    ensures
      var payloads := Encoded(events, encode) + ([bad] + after);
      && Decoded(UpToDone(payloads), decode, text) == Reading(events, Content(events, text), true)
      && Decoded(NonEmpty(payloads), decode, text) == Reading(events, Content(events, text), true)
  {
    var payloads := Encoded(events, encode);
    NoEndMark(events, encode);
    EncodedKept(events, encode, []);
    UpToDoneOfConcat(payloads, [bad] + after);
    assert UpToDone([bad] + after) == [bad] + UpToDone(after);
    NonEmptyOfConcat(payloads, [bad] + after);
    assert NonEmpty([bad] + after) == [bad] + NonEmpty(after);
    DecodedUntilBad(events, encode, decode, text, bad, UpToDone(after));
    DecodedUntilBad(events, encode, decode, text, bad, NonEmpty(after));
  }

  /** The Anthropic reader passes over a data line without data, wherever it stands. */
  lemma EmptyDataIsSkipped<E>(before: seq<string>, after: seq<string>, scanError: bool, decode: string -> Option<E>,
                              text: E -> string)
    ensures AnthropicReading(before + [DATA] + after, scanError, decode, text)
         == AnthropicReading(before + after, scanError, decode, text)
  {
    PayloadsOfConcat(before, [DATA]);
    PayloadsOfConcat(before + [DATA], after);
    PayloadsOfConcat(before, after);
    assert Payloads([DATA]) == [""];
    NonEmptyOfConcat(Payloads(before) + [""], Payloads(after));
    NonEmptyOfConcat(Payloads(before), [""]);
    assert [""][1..] == [] && NonEmpty([""]) == [];
    NonEmptyOfConcat(Payloads(before), Payloads(after));
    assert NonEmpty(Payloads(before)) + [] == NonEmpty(Payloads(before));
  }

  /** A scanner error fails both readers, unless the end mark stopped the OpenAI reader before it. */
  lemma ScannerErrorFails<E(!new)>(blocks: seq<Block<E>>, encode: E -> string, decode: string -> Option<E>,
                                   text: E -> string, after: seq<string>)
    requires forall b <- blocks :: IsFiller(b.filler)
    requires forall e <- Events(blocks) :: decode(encode(e)) == Some(e) && encode(e) != "" && encode(e) != DONE
    ensures
      var lines, events := Rendered(blocks, encode), Events(blocks);
      && OpenAIReading(lines, true, decode, text) == Reading(events, Content(events, text), true)
      && AnthropicReading(lines, true, decode, text) == Reading(events, Content(events, text), true)
      && OpenAIReading(lines + [DATA + DONE] + after, true, decode, text)
         == Reading(events, Content(events, text), false)
  {
    ReadingUndoesRendering(blocks, encode, decode, text, after);
    var lines := Rendered(blocks, encode);
    PayloadsOfRendered(blocks, encode);
    NoEndMark(Events(blocks), encode);
    PayloadsOfConcat(lines, [DATA + DONE]);
    PayloadsOfConcat(lines + [DATA + DONE], after);
    assert Payloads([DATA + DONE]) == [DONE];
    assert DONE in Payloads(lines + [DATA + DONE] + after);
  }

  /**
   A caller that cancels at an event gets those before it and an error, though the event's text is already
   collected.
   */
  lemma CancellingCutsOff<E(!new)>(blocks: seq<Block<E>>, encode: E -> string, decode: string -> Option<E>,
                                   text: E -> string, k: nat)
    requires forall b <- blocks :: IsFiller(b.filler)
    requires forall e <- Events(blocks) :: decode(encode(e)) == Some(e) && encode(e) != "" && encode(e) != DONE
    requires k < |Events(blocks)|
    ensures
      var lines, events := Rendered(blocks, encode), Events(blocks);
      var cut := Reading(events[..k], Content(events[..k], text) + text(events[k]), true);
      && Cancelled(OpenAIReading(lines, false, decode, text), Some(k), text) == cut
      && Cancelled(AnthropicReading(lines, false, decode, text), Some(k), text) == cut
  {
    ReadingUndoesRendering(blocks, encode, decode, text, []);
    hide Rendered, Events, Decoded, UpToDone, NonEmpty, Payloads, IsFiller, Content, Cancelled, Encoded;
    CancelledAt(Events(blocks), text, k);
  }

  lemma CancelledAt<E>(events: seq<E>, text: E -> string, k: nat)
    requires k < |events|
    ensures Cancelled(Reading(events, Content(events, text), false), Some(k), text)
         == Reading(events[..k], Content(events[..k], text) + text(events[k]), true)
  {
    hide Content;
    ContentOneMore(events[..k], events[k], text);
    assert events[..k + 1] == events[..k] + [events[k]];
  }

  lemma {:induction false} NoEndMark<E(!new)>(events: seq<E>, encode: E -> string)
    requires forall e <- events :: encode(e) != DONE
    ensures DONE !in Encoded(events, encode)
  {
    if events != [] {
      assert events[0] in events && forall e <- events[1..] :: e in events;
      NoEndMark(events[1..], encode);
    }
  }
}

/** The buffered channel between a reader and the caller, under every interleaving of the two. */
module Delivery {
  import opened Wrappers
  import opened Streams

  const CAPACITY := 10

  /** What the caller last got from `Recv`: an event, the end, or an error. */
  datatype Received = Nothing | Event | EndOfFile | Error

  /**
   The reader has sent the first `sent` events of its reading, and sets `failed` or not before it closes
   the channel; `received` is what the caller has taken out.
   */
  datatype Stream<E> = Stream(
    reading: Reading<E>,
    sent: nat,
    queue: seq<E>,
    closed: bool,
    cancelled: bool,
    failed: bool,
    received: seq<E>,
    last: Received)

  datatype Step = Send | Finish | Cancel | Recv

  /**
   The reader finishes when its reading ends, well or with an error, or gives up an event because the
   caller cancelled.
   */
  predicate Enabled<E>(s: Stream<E>, step: Step) {
    match step
    case Send => !s.closed && s.sent < |s.reading.events| && |s.queue| < CAPACITY
    case Finish => !s.closed && s.sent == |s.reading.events|
    case Cancel => !s.closed && s.sent < |s.reading.events|
    case Recv => s.queue != [] || s.closed
  }

  function Next<E>(s: Stream<E>, step: Step): Stream<E>
    requires Enabled(s, step)
  {
    match step
    case Send => s.(sent := s.sent + 1, queue := s.queue + [s.reading.events[s.sent]])
    case Finish => s.(failed := s.reading.failed, closed := true)
    case Cancel => s.(failed := true, cancelled := true, closed := true)
    case Recv =>
      if s.queue != [] then s.(queue := s.queue[1..], received := s.received + [s.queue[0]], last := Event)
      else s.(last := if s.failed then Error else EndOfFile)
  }

  ghost predicate Leads<E>(s: Stream<E>, steps: seq<Step>, s': Stream<E>)
    decreases |steps|
  {
    if steps == [] then s == s' else Enabled(s, steps[0]) && Leads(Next(s, steps[0]), steps[1..], s')
  }

  function Start<E>(reading: Reading<E>): Stream<E> {
    Stream(reading, 0, [], false, false, false, [], Nothing)
  }

  ghost predicate Inv<E>(s: Stream<E>) {
    && s.sent <= |s.reading.events| && |s.queue| <= CAPACITY
    && s.received + s.queue == s.reading.events[..s.sent]
    && (s.cancelled || s.failed ==> s.closed)
    && (s.closed && s.cancelled ==> s.failed && s.sent < |s.reading.events|)
    && (s.closed && !s.cancelled ==> s.failed == s.reading.failed && s.sent == |s.reading.events|)
    && (s.last == EndOfFile ==> s.closed && !s.failed && s.queue == [])
    && (s.last == Error ==> s.failed && s.queue == [])
  }

  lemma StepKeepsInv<E>(s: Stream<E>, step: Step)
    requires Inv(s) && Enabled(s, step)
    ensures Inv(Next(s, step)) && Next(s, step).reading == s.reading
  {
    match step
    case Send =>
      var events := s.reading.events;
      assert s.received + (s.queue + [events[s.sent]]) == events[..s.sent] + [events[s.sent]];
    case Recv =>
      if s.queue != [] {
        assert s.received + [s.queue[0]] + s.queue[1..] == s.received + s.queue;
      }
    case _ =>
  }

  lemma {:induction false} RunKeepsInv<E>(s: Stream<E>, steps: seq<Step>, s': Stream<E>)
    requires Inv(s) && Leads(s, steps, s')
    ensures Inv(s') && s'.reading == s.reading
    decreases |steps|
  {
    if steps != [] {
      StepKeepsInv(s, steps[0]);
      RunKeepsInv(Next(s, steps[0]), steps[1..], s');
    }
  }

  /**
   In every interleaving the caller receives a prefix of the reading's events in order. It is told of the end
   only after it received them all and the reading has no error. It is told of an error only after all that
   was sent before it, and, unless it cancelled, only when the reading has one and all its events came.
   */
  lemma RecvDeliversInOrder<E>(reading: Reading<E>, steps: seq<Step>, s: Stream<E>)
    requires Leads(Start(reading), steps, s)
    ensures s.sent <= |reading.events| && s.received <= reading.events[..s.sent]
    ensures s.last == EndOfFile ==> s.received == reading.events && !reading.failed && !s.cancelled
    ensures s.last == Error ==> s.received == reading.events[..s.sent]
    ensures s.last == Error && !s.cancelled ==> s.received == reading.events && reading.failed
  {
    RunKeepsInv(Start(reading), steps, s);
    assert s.received + s.queue == reading.events[..s.sent];
  }

  /**
   What went into the channel by the time it is closed is what the reader sends, for some point of
   cancellation or none.
   */
  lemma ClosedAsRead<E>(reading: Reading<E>, steps: seq<Step>, s: Stream<E>, text: E -> string)
    requires Leads(Start(reading), steps, s) && s.closed
    ensures
      var result := Cancelled(reading, if s.cancelled then Some(s.sent) else None, text);
      s.received + s.queue == result.events && s.failed == result.failed
  {
    RunKeepsInv(Start(reading), steps, s);
  }

  /**
   End to end, for both readers: if events are rendered as lines and read, and the caller is told of the end,
   it has received exactly the events; and it is told of an error only if the scanner failed or it cancelled.
   */
  lemma RenderedIsReceived<E(!new)>(blocks: seq<Block<E>>, encode: E -> string, decode: string -> Option<E>,
                                    text: E -> string, scanError: bool, steps: seq<Step>, s: Stream<E>)
    requires forall b <- blocks :: IsFiller(b.filler)
    requires forall e <- Events(blocks) :: decode(encode(e)) == Some(e) && encode(e) != "" && encode(e) != DONE
    requires
      var lines := Rendered(blocks, encode);
      || Leads(Start(OpenAIReading(lines, scanError, decode, text)), steps, s)
      || Leads(Start(AnthropicReading(lines, scanError, decode, text)), steps, s)
    ensures s.received <= Events(blocks)
    ensures s.last == EndOfFile ==> s.received == Events(blocks)
    ensures s.last == Error ==> s.cancelled || (scanError && s.received == Events(blocks))
    ensures scanError ==> s.last != EndOfFile
  {
    ReadingUndoesRendering(blocks, encode, decode, text, []);
    ScannerErrorFails(blocks, encode, decode, text, []);
    var lines := Rendered(blocks, encode);
    if Leads(Start(OpenAIReading(lines, scanError, decode, text)), steps, s) {
      RecvDeliversInOrder(OpenAIReading(lines, scanError, decode, text), steps, s);
    } else {
      RecvDeliversInOrder(AnthropicReading(lines, scanError, decode, text), steps, s);
    }
  }

  /**
   And if data that does not decode follows the events, whatever comes after it, the caller is never told of the
   end, in any interleaving, and of an error only after all the events, unless it cancelled.
   */
  lemma BadDataIsReported<E(!new)>(blocks: seq<Block<E>>, encode: E -> string, decode: string -> Option<E>,
                                   text: E -> string, bad: string, after: seq<string>, scanError: bool,
                                   steps: seq<Step>, s: Stream<E>)
    requires forall b <- blocks :: IsFiller(b.filler)
    requires forall e <- Events(blocks) :: decode(encode(e)) == Some(e) && encode(e) != "" && encode(e) != DONE
    requires bad != "" && bad != DONE && decode(bad).None?
    requires
      var lines := Rendered(blocks, encode) + [DATA + bad] + after;
      || Leads(Start(OpenAIReading(lines, scanError, decode, text)), steps, s)
      || Leads(Start(AnthropicReading(lines, scanError, decode, text)), steps, s)
    ensures s.received <= Events(blocks) && s.last != EndOfFile
    ensures s.last == Error && !s.cancelled ==> s.received == Events(blocks)
  {
    BadDataFails(blocks, encode, decode, text, bad, after, scanError);
    var lines := Rendered(blocks, encode) + [DATA + bad] + after;
    RecvDeliversInOrder(OpenAIReading(lines, scanError, decode, text), steps, s);
  }
}
