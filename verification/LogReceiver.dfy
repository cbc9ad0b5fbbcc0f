/** The reader's side of log streams: sequence checks, per-stream output and the end of the session. */
module LogReceiver {
  import opened Wrappers
  import opened DataFrames
  import opened LogLines
  import opened LogStreams

  /** What the reader knows of one stream. `payloads` is what arrived, `printed` what was written with its prefix. */
  datatype Stream = Stream(last: Option<U64>, ended: bool, failed: bool, buffer: Bytes, payloads: seq<Bytes>, printed: Bytes)

  const FRESH := Stream(None, false, false, [], [], [])

  function Expected(stream: Stream): U64 {
    if stream.last.None? then 0 else Next(stream.last.value)
  }

  function Remainder(prefix: Bytes, buffer: Bytes): Bytes {
    if buffer == [] then [] else prefix + buffer + [NEWLINE]
  }

  /** None is a sequence error or an unsupported frame. */
  function Accept(prefix: Bytes, stream: Stream, frame: Frame): Option<Stream> {
    if frame.sequence != Expected(stream) then None
    else
      var numbered := stream.(last := Some(frame.sequence));
      match frame.kind
      case Data =>
        Some(numbered.(buffer := Left(stream.buffer + frame.payload),
                       payloads := stream.payloads + [frame.payload],
                       printed := stream.printed + Printed(prefix, stream.buffer + frame.payload)))
      case Error => Some(numbered.(failed := true))
      case End => Some(numbered.(ended := true, buffer := [], printed := stream.printed + Remainder(prefix, stream.buffer)))
      case _ => None
  }

  type Streams = map<U32, Stream>

  predicate AllEnded(streams: Streams) { forall s :: s in streams ==> streams[s].ended }

  function AcceptMessage(prefixes: map<U32, Bytes>, streams: Streams, message: Bytes): Option<Streams>
    requires streams.Keys == prefixes.Keys
  {
    match Decode(message)
    case None => None
    case Some(frame) =>
      if frame.stream !in streams then None
      else match Accept(prefixes[frame.stream], streams[frame.stream], frame)
        case None => None
        case Some(stream) => Some(streams[frame.stream := stream])
  }

  function Begin(prefixes: map<U32, Bytes>): Streams { map s | s in prefixes :: FRESH }

  /** The state after all the messages, None once one was refused. */
  function After(prefixes: map<U32, Bytes>, messages: seq<Bytes>): (r: Option<Streams>)
    ensures r.Some? ==> r.value.Keys == prefixes.Keys
  {
    if messages == [] then Some(Begin(prefixes))
    else match After(prefixes, messages[..|messages| - 1])
      case None => None
      case Some(streams) => AcceptMessage(prefixes, streams, messages[|messages| - 1])
  }

  /** After n messages there was no error, and some stream is still open. */
  ghost predicate Reading(prefixes: map<U32, Bytes>, messages: seq<Bytes>, n: nat)
    requires n <= |messages|
  {
    var state := After(prefixes, messages[..n]);
    state.Some? && !AllEnded(state.value)
  }

  lemma {:induction false} AfterNext(prefixes: map<U32, Bytes>, messages: seq<Bytes>, n: nat)
    requires n < |messages| && After(prefixes, messages[..n]).Some?
    ensures After(prefixes, messages[..n + 1]) == AcceptMessage(prefixes, After(prefixes, messages[..n]).value, messages[n])
  {
    assert messages[..n + 1][..n] == messages[..n];
  }

  method Finished(streams: Streams) returns (done: bool)
    ensures done <==> AllEnded(streams)
  {
    var todo := streams.Keys;
    done := true;
    while todo != {}
      invariant todo <= streams.Keys && done
      invariant forall s :: s in streams && s !in todo ==> streams[s].ended
      decreases todo
    {
      var s :| s in todo;
      if !streams[s].ended { return false; }
      todo := todo - {s};
    }
  }

  class Reader {
    const prefixes: map<U32, Bytes>
    var streams: Streams

    constructor (prefixes: map<U32, Bytes>)
      ensures this.prefixes == prefixes && streams == Begin(prefixes)
    {
      this.prefixes, streams := prefixes, Begin(prefixes);
    }

    method Take(message: Bytes) returns (ok: bool)
      requires streams.Keys == prefixes.Keys
      modifies this
      ensures ok <==> AcceptMessage(prefixes, old(streams), message).Some?
      ensures ok ==> Some(streams) == AcceptMessage(prefixes, old(streams), message)
      ensures !ok ==> streams == old(streams)
    {
      var decoded := Decode(message);
      if decoded.None? { return false; }
      var frame := decoded.value;
      if frame.stream !in prefixes { return false; }
      var stream, prefix := streams[frame.stream], prefixes[frame.stream];
      if frame.sequence != Expected(stream) { return false; }
      stream := stream.(last := Some(frame.sequence));
      match frame.kind {
        case Data =>
          var output, rest := WritePrefixed(prefix, stream.buffer, frame.payload);
          stream := stream.(buffer := rest, payloads := stream.payloads + [frame.payload], printed := stream.printed + output);
        case Error =>
          stream := stream.(failed := true);
        case End =>
          assert stream.printed + [] == stream.printed;
          if stream.buffer != [] {
            stream := stream.(printed := stream.printed + (prefix + stream.buffer + [NEWLINE]), buffer := []);
          }
          stream := stream.(ended := true);
        case _ =>
          return false;
      }
      streams := streams[frame.stream := stream];
      ok := true;
    }

    /** Reads until every stream has ended; `consumed` messages were read without an error. */
    method Receive(messages: seq<Bytes>) returns (ok: bool, consumed: nat)
      requires streams == Begin(prefixes)
      modifies this
      ensures Reached(prefixes, messages, consumed, streams)
      ensures ok <==> AllEnded(streams)
      ensures !ok ==> consumed == |messages| || After(prefixes, messages[..consumed + 1]).None?
    {
      consumed := 0;
      ReachedFirst(prefixes, messages);
      var done := Finished(streams);
      while !done
        invariant Reached(prefixes, messages, consumed, streams)
        invariant done <==> AllEnded(streams)
        decreases |messages| - consumed, !done
      {
        if consumed == |messages| { return false, consumed; }
        ReachedNext(prefixes, messages, consumed, streams, messages[consumed]);
        var taken := Take(messages[consumed]);
        if !taken { return false, consumed; }
        consumed := consumed + 1;
        done := Finished(streams);
      }
      ok := true;
    }
  }

  /** `streams` is the state after n messages, and no earlier state was final. */
  ghost predicate Reached(prefixes: map<U32, Bytes>, messages: seq<Bytes>, n: nat, streams: Streams) {
    && n <= |messages| && streams.Keys == prefixes.Keys && After(prefixes, messages[..n]) == Some(streams)
    && forall m :: 0 <= m < n ==> Reading(prefixes, messages, m)
  }

  lemma {:induction false} ReachedFirst(prefixes: map<U32, Bytes>, messages: seq<Bytes>)
    ensures Reached(prefixes, messages, 0, Begin(prefixes))
  {
    assert messages[..0] == [];
  }

  lemma {:induction false} ReachedNext(prefixes: map<U32, Bytes>, messages: seq<Bytes>, n: nat, streams: Streams,
          message: Bytes)
    requires Reached(prefixes, messages, n, streams) && !AllEnded(streams) && n < |messages| && message == messages[n]
    ensures var r := AcceptMessage(prefixes, streams, message);
      if r.Some? then Reached(prefixes, messages, n + 1, r.value) else After(prefixes, messages[..n + 1]).None?
  {
    AfterNext(prefixes, messages, n);
  }

  // ----- streams are independent -----

  /** The frames of one stream, in order. */
  function Only(frames: seq<Frame>, s: U32): seq<Frame> {
    if frames == [] then []
    else
      var front, last := frames[..|frames| - 1], frames[|frames| - 1];
      if last.stream == s then Only(front, s) + [last] else Only(front, s)
  }

  function StreamAfter(prefix: Bytes, frames: seq<Frame>): Option<Stream> {
    if frames == [] then Some(FRESH)
    else match StreamAfter(prefix, frames[..|frames| - 1])
      case None => None
      case Some(stream) => Accept(prefix, stream, frames[|frames| - 1])
  }

  ghost predicate Carries(messages: seq<Bytes>, frames: seq<Frame>) {
    |messages| == |frames| && forall i :: 0 <= i < |frames| ==> Decode(messages[i]) == Some(frames[i])
  }

  /** Each stream is as it would be had its frames arrived alone. */
  ghost predicate Agrees(prefixes: map<U32, Bytes>, streams: Streams, frames: seq<Frame>) {
    streams.Keys == prefixes.Keys
    && forall s :: s in prefixes ==> Some(streams[s]) == StreamAfter(prefixes[s], Only(frames, s))
  }

  lemma {:induction false} AcceptDecoded(prefixes: map<U32, Bytes>, streams: Streams, message: Bytes, f: Frame)
    requires streams.Keys == prefixes.Keys && Decode(message) == Some(f) && f.stream in prefixes
    requires Accept(prefixes[f.stream], streams[f.stream], f).Some?
    ensures AcceptMessage(prefixes, streams, message)
            == Some(streams[f.stream := Accept(prefixes[f.stream], streams[f.stream], f).value])
  {
  }

  lemma {:induction false} AgreesWith(prefixes: map<U32, Bytes>, streams: Streams, frames: seq<Frame>, next: Stream)
    requires frames != [] && Agrees(prefixes, streams, frames[..|frames| - 1]) && frames[|frames| - 1].stream in prefixes
    requires var t := frames[|frames| - 1].stream; Some(next) == StreamAfter(prefixes[t], Only(frames, t))
    ensures Agrees(prefixes, streams[frames[|frames| - 1].stream := next], frames)
  {
    var t := frames[|frames| - 1].stream;
    forall s | s in prefixes && s != t ensures Some(streams[s]) == StreamAfter(prefixes[s], Only(frames, s)) {
      OnlyOthers(frames, s);
    }
  }

  lemma {:induction false} AgreesNext(prefixes: map<U32, Bytes>, streams: Streams, frames: seq<Frame>, message: Bytes)
    requires frames != [] && Agrees(prefixes, streams, frames[..|frames| - 1])
    requires Decode(message) == Some(frames[|frames| - 1]) && frames[|frames| - 1].stream in prefixes
    requires forall s :: s in prefixes ==> StreamAfter(prefixes[s], Only(frames, s)).Some?
    ensures var r := AcceptMessage(prefixes, streams, message); r.Some? && Agrees(prefixes, r.value, frames)
  {
    var last := frames[|frames| - 1];
    var t := last.stream;
    OnlyLast(prefixes[t], frames, t);
    var after := Accept(prefixes[t], streams[t], last);
    assert after == StreamAfter(prefixes[t], Only(frames, t));
    AcceptDecoded(prefixes, streams, message, last);
    AgreesWith(prefixes, streams, frames, after.value);
  }

  lemma {:induction false} OnlyOthers(frames: seq<Frame>, s: U32)
    requires frames != [] && frames[|frames| - 1].stream != s
    ensures Only(frames, s) == Only(frames[..|frames| - 1], s)
  {
  }

  /** If every stream on its own would be accepted, so is the interleaving, and each stream ends up the same. */
  lemma {:induction false} Interleaved(prefixes: map<U32, Bytes>, messages: seq<Bytes>, frames: seq<Frame>, n: nat)
    requires Carries(messages, frames) && n <= |frames|
    requires forall i :: 0 <= i < |frames| ==> frames[i].stream in prefixes
    requires forall s :: s in prefixes ==> StreamAfter(prefixes[s], Only(frames[..n], s)).Some?
    ensures After(prefixes, messages[..n]).Some? && Agrees(prefixes, After(prefixes, messages[..n]).value, frames[..n])
  {
    if n > 0 {
      var m, so := n - 1, frames[..n];
      assert so[..m] == frames[..m] && so[m] == frames[m];
      forall s | s in prefixes ensures StreamAfter(prefixes[s], Only(frames[..m], s)).Some? {
        OnlyLast(prefixes[s], so, s);
      }
      Interleaved(prefixes, messages, frames, m);
      AgreesNext(prefixes, After(prefixes, messages[..m]).value, so, messages[m]);
      AfterNext(prefixes, messages, m);
    } else {
      assert messages[..0] == [] && frames[..0] == [];
    }
  }

  lemma {:induction false} OnlyLast(prefix: Bytes, frames: seq<Frame>, s: U32)
    requires frames != [] && StreamAfter(prefix, Only(frames, s)).Some?
    ensures var front, last := frames[..|frames| - 1], frames[|frames| - 1];
      && StreamAfter(prefix, Only(front, s)).Some?
      && (last.stream == s ==>
            StreamAfter(prefix, Only(frames, s)) == Accept(prefix, StreamAfter(prefix, Only(front, s)).value, last))
  {
    var front, last := frames[..|frames| - 1], frames[|frames| - 1];
    if last.stream == s {
      assert Only(frames, s)[..|Only(frames, s)| - 1] == Only(front, s);
    }
  }

  // ----- a sender's frames are accepted -----

  lemma {:induction false} SentAt(s: U32, source: Source, k: nat)
    requires k < |Sent(s, source)|
    ensures Sent(s, source)[k].sequence == Number(k) && Sent(s, source)[k].stream == s
    ensures |Sent(s, source)| >= |SplitAll(source.chunks)|
    ensures k < |SplitAll(source.chunks)| ==>
              Sent(s, source)[k].kind.Data? && Sent(s, source)[k].payload == SplitAll(source.chunks)[k].payload
    ensures k >= |SplitAll(source.chunks)| ==>
              && Closes(source)
              && Sent(s, source)[k].kind == (if k == |Sent(s, source)| - 1 then End else Error)
              && |Sent(s, source)| == |SplitAll(source.chunks)| + (if source.failure.Some? then 2 else 1)
  {
    var parts := SplitAll(source.chunks);
    NumberedConcat(s, parts, [], 0);
    if k < |parts| { NumberedAt(s, parts, 0, k); }
  }

  /** After the first k frames of a stream. */
  ghost predicate Accepted(prefix: Bytes, source: Source, k: nat, stream: Stream) {
    var parts := SplitAll(source.chunks);
    && stream.last == (if k == 0 then None else Some(Number(k - 1)))
    && stream.ended == (k > |parts| && k == |parts| + if source.failure.Some? then 2 else 1)
    && stream.failed == (k > |parts| && source.failure.Some?)
    && stream.payloads == Payloads(parts)[..if k < |parts| then k else |parts|]
    && (!stream.ended ==> stream.buffer == LeftAll([], stream.payloads) && stream.printed == PrintedAll(prefix, [], stream.payloads))
    && (stream.ended ==> stream.printed == PrintedAll(prefix, [], stream.payloads) + Remainder(prefix, LeftAll([], stream.payloads)))
  }

  lemma {:induction false} PrintedSnoc(prefix: Bytes, buffer: Bytes, payloads: seq<Bytes>, payload: Bytes)
    ensures PrintedAll(prefix, buffer, payloads + [payload])
            == PrintedAll(prefix, buffer, payloads) + Printed(prefix, LeftAll(buffer, payloads) + payload)
    ensures LeftAll(buffer, payloads + [payload]) == Left(LeftAll(buffer, payloads) + payload)
    decreases |payloads|
  {
    var longer := payloads + [payload];
    if payloads == [] {
      assert longer[0] == payload && longer[1..] == [];
      assert PrintedAll(prefix, Left(buffer + payload), []) == [];
    } else {
      assert longer[0] == payloads[0] && longer[1..] == payloads[1..] + [payload];
      var left := Left(buffer + payloads[0]);
      PrintedSnoc(prefix, left, payloads[1..], payload);
      Reassociate(Printed(prefix, buffer + payloads[0]), PrintedAll(prefix, left, payloads[1..]),
                  Printed(prefix, LeftAll(left, payloads[1..]) + payload));
    }
  }

  lemma {:induction false} AcceptNext(prefix: Bytes, s: U32, source: Source, k: nat, stream: Stream)
    requires k < |Sent(s, source)| && Accepted(prefix, source, k, stream)
    ensures var r := Accept(prefix, stream, Sent(s, source)[k]); r.Some? && Accepted(prefix, source, k + 1, r.value)
  {
    var parts := SplitAll(source.chunks);
    SentAt(s, source, k);
    if k > 0 { NextNumber(k - 1); }
    if k < |parts| {
      assert Payloads(parts)[..k + 1] == Payloads(parts)[..k] + [parts[k].payload];
      PrintedSnoc(prefix, [], stream.payloads, parts[k].payload);
    } else {
      assert Payloads(parts)[..|parts|] == Payloads(parts);
    }
  }

  lemma {:induction false} StreamAfterNext(prefix: Bytes, frames: seq<Frame>, k: nat)
    requires k < |frames| && StreamAfter(prefix, frames[..k]).Some?
    ensures StreamAfter(prefix, frames[..k + 1]) == Accept(prefix, StreamAfter(prefix, frames[..k]).value, frames[k])
  {
    assert frames[..k + 1][..k] == frames[..k];
  }

  lemma {:induction false} NothingAccepted(prefix: Bytes, source: Source)
    ensures Accepted(prefix, source, 0, FRESH)
  {
    assert Payloads(SplitAll(source.chunks))[..0] == [];
  }

  lemma {:induction false} SentAccepted(prefix: Bytes, s: U32, source: Source, k: nat) returns (stream: Stream)
    requires k <= |Sent(s, source)|
    ensures StreamAfter(prefix, Sent(s, source)[..k]) == Some(stream) && Accepted(prefix, source, k, stream)
  {
    var frames := Sent(s, source);
    if k == 0 {
      assert frames[..0] == [];
      NothingAccepted(prefix, source);
      stream := FRESH;
    } else {
      var n := k - 1;
      var before := SentAccepted(prefix, s, source, n);
      StreamAfterNext(prefix, frames, n);
      AcceptNext(prefix, s, source, n, before);
      stream := Accept(prefix, before, frames[n]).value;
    }
  }

  // ----- the session -----

  /** The frames are an interleaving of what the senders send: each stream's frames appear in its own order. */
  ghost predicate Session(sources: map<U32, Source>, frames: seq<Frame>) {
    && (forall s :: s in sources ==> Only(frames, s) == Sent(s, sources[s]))
    && (forall i :: 0 <= i < |frames| ==> frames[i].stream in sources)
  }

  lemma {:induction false} OnlyPrefix(frames: seq<Frame>, n: nat, s: U32)
    requires n <= |frames|
    ensures |Only(frames[..n], s)| <= |Only(frames, s)| && Only(frames[..n], s) == Only(frames, s)[..|Only(frames[..n], s)|]
    ensures n < |frames| && frames[n].stream == s ==> |Only(frames[..n], s)| < |Only(frames, s)|
    decreases |frames|
  {
    if n == |frames| {
      assert frames[..n] == frames;
    } else {
      var front := frames[..|frames| - 1];
      assert front[..n] == frames[..n];
      OnlyPrefix(front, n, s);
      assert n < |front| ==> front[n] == frames[n];
    }
  }

  /** At any point of a session every message so far was accepted, and some stream is still open. */
  lemma {:induction false} SessionSoFar(prefixes: map<U32, Bytes>, sources: map<U32, Source>, messages: seq<Bytes>,
          frames: seq<Frame>, n: nat)
    requires prefixes.Keys == sources.Keys && Carries(messages, frames) && Session(sources, frames) && n <= |frames|
    ensures n < |frames| ==> Reading(prefixes, messages, n)
    ensures var state := After(prefixes, messages[..n]);
      && state.Some?
      && (forall s :: s in sources ==> Accepted(prefixes[s], sources[s], |Only(frames[..n], s)|, state.value[s]))
  {
    var so := frames[..n];
    forall s | s in prefixes
      ensures var r := StreamAfter(prefixes[s], Only(so, s)); r.Some? && Accepted(prefixes[s], sources[s], |Only(so, s)|, r.value)
    {
      OnlyPrefix(frames, n, s);
      var stream := SentAccepted(prefixes[s], s, sources[s], |Only(so, s)|);
    }
    Interleaved(prefixes, messages, frames, n);
    if n < |frames| {
      var s := frames[n].stream;
      OnlyPrefix(frames, n, s);
      var state := After(prefixes, messages[..n]).value;
      StillOpen(s, sources[s], |Only(so, s)|, prefixes[s], state[s]);
    }
  }

  /** A stream ends with its last frame, if that is an end frame. */
  lemma {:induction false} StillOpen(s: U32, source: Source, k: nat, prefix: Bytes, stream: Stream)
    requires k <= |Sent(s, source)| && Accepted(prefix, source, k, stream)
    ensures stream.ended <==> k == |Sent(s, source)| && Closes(source)
  {
    NumberedConcat(s, SplitAll(source.chunks), [], 0);
  }

  /** What a stream's prefixed output is when its lines are even, with or without the end frame. */
  function WholeOutput(prefix: Bytes, content: Bytes, ended: bool): Bytes {
    Cut(prefix, content) + if ended then Remainder(prefix, Left(content)) else []
  }

  lemma {:induction false} StreamComplete(prefix: Bytes, s: U32, source: Source, stream: Stream)
    requires Accepted(prefix, source, |Sent(s, source)|, stream)
    ensures Flatten(stream.payloads) == Content(source)
    ensures stream.failed <==> source.failure.Some? && Closes(source)
    ensures EvenLines(Content(source)) ==> stream.printed == WholeOutput(prefix, Content(source), Closes(source))
  {
    var parts, content := SplitAll(source.chunks), Content(source);
    StillOpen(s, source, |Sent(s, source)|, prefix, stream);
    SplitAllKeepsBytes(source.chunks);
    SplitAllFits(source.chunks);
    NumberedConcat(s, parts, [], 0);
    assert Payloads(parts)[..|parts|] == Payloads(parts) && stream.payloads == Payloads(parts);
    if EvenLines(content) {
      assert [] + Flatten(stream.payloads) == content;
      CutAll(prefix, [], stream.payloads);
      LeftAllJoin([], stream.payloads);
      assert Cut(prefix, content) + [] == Cut(prefix, content);
    }
  }

  /**
   * For every interleaving the reader raises no error and never stops before the last message; all streams have then
   * ended exactly if every sender closed its stream.
   */
  lemma {:induction false} SessionEnds(prefixes: map<U32, Bytes>, sources: map<U32, Source>, messages: seq<Bytes>,
          frames: seq<Frame>)
    requires prefixes.Keys == sources.Keys && Carries(messages, frames) && Session(sources, frames)
    ensures After(prefixes, messages).Some?
    ensures AllEnded(After(prefixes, messages).value) <==> forall s :: s in sources ==> Closes(sources[s])
    ensures forall n :: 0 <= n < |messages| ==> Reading(prefixes, messages, n)
    ensures forall s :: s in sources ==>
              Accepted(prefixes[s], sources[s], |Sent(s, sources[s])|, After(prefixes, messages).value[s])
  {
    SessionSoFar(prefixes, sources, messages, frames, |frames|);
    assert messages[..|frames|] == messages && frames[..|frames|] == frames;
    var state := After(prefixes, messages).value;
    forall t | t in sources ensures state[t].ended <==> Closes(sources[t]) {
      StillOpen(t, sources[t], |Sent(t, sources[t])|, prefixes[t], state[t]);
    }
    forall n | 0 <= n < |messages| ensures Reading(prefixes, messages, n) {
      SessionSoFar(prefixes, sources, messages, frames, n);
    }
  }

  /**
   * Each stream's bytes arrive complete and in order, its error exactly if the sender could send it, and with even
   * lines the prefixed output does not depend on the chunks.
   */
  lemma {:induction false} SessionComplete(prefixes: map<U32, Bytes>, sources: map<U32, Source>, messages: seq<Bytes>,
          frames: seq<Frame>, s: U32)
    requires prefixes.Keys == sources.Keys && Carries(messages, frames) && Session(sources, frames) && s in sources
    ensures After(prefixes, messages).Some?
    ensures var stream, source := After(prefixes, messages).value[s], sources[s];
      && Flatten(stream.payloads) == Content(source)
      && (stream.failed <==> source.failure.Some? && Closes(source))
      && (EvenLines(Content(source)) ==> stream.printed == WholeOutput(prefixes[s], Content(source), Closes(source)))
  {
    SessionEnds(prefixes, sources, messages, frames);
    StreamComplete(prefixes[s], s, sources[s], After(prefixes, messages).value[s]);
  }

  // ----- the output a reader of the log expects -----

  /** The lines of a log, each with its newline. */
  function Joined(lines: seq<Bytes>): Bytes {
    if lines == [] then [] else lines[0] + [NEWLINE] + Joined(lines[1..])
  }

  /** The same, each line after the prefix. */
  function Labelled(prefix: Bytes, lines: seq<Bytes>): Bytes {
    if lines == [] then [] else prefix + lines[0] + [NEWLINE] + Labelled(prefix, lines[1..])
  }

  predicate Plain(line: Bytes) { NEWLINE !in line && |line| < MAX_LINE }

  lemma {:induction false} PlainFirst(prefix: Bytes, line: Bytes, rest: Bytes)
    requires Plain(line)
    ensures var s := line + [NEWLINE] + rest;
      && Cut(prefix, s) == prefix + line + [NEWLINE] + Cut(prefix, rest) && Left(s) == Left(rest)
      && (EvenLines(s) <==> EvenLines(rest))
  {
    var s := line + [NEWLINE] + rest;
    BreakUnique(s, |line|);
    assert s[..|line|] == line && s[|line| + 1..] == rest;
    assert [] + (prefix + line + [NEWLINE]) == prefix + line + [NEWLINE];
  }

  lemma {:induction false} PlainLast(prefix: Bytes, tail: Bytes)
    requires Plain(tail)
    ensures EvenLines(tail) && WholeOutput(prefix, tail, true) == if tail == [] then [] else prefix + tail + [NEWLINE]
  {
    BreakUnique(tail, |tail|);
  }

  lemma {:induction false} PlainStep(prefix: Bytes, line: Bytes, rest: Bytes)
    requires Plain(line) && EvenLines(rest)
    ensures var s := line + [NEWLINE] + rest;
      EvenLines(s) && WholeOutput(prefix, s, true) == prefix + line + [NEWLINE] + WholeOutput(prefix, rest, true)
  {
    PlainFirst(prefix, line, rest);
    var head, end := prefix + line + [NEWLINE], Remainder(prefix, Left(rest));
    assert head + Cut(prefix, rest) + end == head + (Cut(prefix, rest) + end);
  }

  lemma {:induction false} PlainMore(prefix: Bytes, line: Bytes, joined: Bytes, labelled: Bytes, tail: Bytes, last: Bytes)
    requires Plain(line) && EvenLines(joined + tail) && WholeOutput(prefix, joined + tail, true) == labelled + last
    ensures var s := line + [NEWLINE] + joined + tail;
      EvenLines(s) && WholeOutput(prefix, s, true) == prefix + line + [NEWLINE] + labelled + last
  {
    PlainStep(prefix, line, joined + tail);
    assert line + [NEWLINE] + (joined + tail) == line + [NEWLINE] + joined + tail;
    var head := prefix + line + [NEWLINE];
    assert head + (labelled + last) == head + labelled + last;
  }

  /**
   * The output of a complete stream of lines shorter than the limit: each line after the prefix, and an unterminated last
   * one as well, with a newline of its own.
   */
  lemma {:induction false} PlainOutput(prefix: Bytes, lines: seq<Bytes>, tail: Bytes)
    requires (forall i :: 0 <= i < |lines| ==> Plain(lines[i])) && Plain(tail)
    ensures EvenLines(Joined(lines) + tail)
    ensures WholeOutput(prefix, Joined(lines) + tail, true)
            == Labelled(prefix, lines) + if tail == [] then [] else prefix + tail + [NEWLINE]
  {
    var last: Bytes := if tail == [] then [] else prefix + tail + [NEWLINE];
    if lines == [] {
      assert Joined(lines) + tail == tail && Labelled(prefix, lines) + last == last;
      PlainLast(prefix, tail);
    } else {
      PlainOutput(prefix, lines[1..], tail);
      PlainMore(prefix, lines[0], Joined(lines[1..]), Labelled(prefix, lines[1..]), tail, last);
    }
  }
}
