/** A log session over several nodes: what reaches the reader through the controller, and when it stops reading. */
module RelaySessions {
  import opened Wrappers
  import opened DataFrames
  import opened LogLines
  import opened LogStreams
  import opened LogReceiver
  import opened RelayReasons
  import opened LogRelay

  // ----- an interleaving of the nodes' deliveries -----

  /** The frames of a set of streams, in order. */
  function From(frames: seq<Frame>, streams: set<U32>): seq<Frame> {
    if frames == [] then []
    else
      var front, last := frames[..|frames| - 1], frames[|frames| - 1];
      if last.stream in streams then From(front, streams) + [last] else From(front, streams)
  }

  /** Every stream of the reader belongs to exactly one node. */
  ghost predicate Partition(streams: set<U32>, nodes: map<string, Attachment>) {
    && (forall s :: s in streams ==> exists g :: g in nodes && s in nodes[g].allowed)
    && (forall g, s :: g in nodes && s in nodes[g].allowed ==> s in streams)
    && (forall g, h, s :: g in nodes && h in nodes && s in nodes[g].allowed && s in nodes[h].allowed ==> g == h)
  }

  /** The frames are an interleaving of what the nodes deliver, each in its own order. */
  ghost predicate RelayedSession(prefixes: map<U32, Bytes>, nodes: map<string, Attachment>, frames: seq<Frame>) {
    && Partition(prefixes.Keys, nodes)
    && (forall i :: 0 <= i < |frames| ==> frames[i].stream in prefixes)
    && (forall g :: g in nodes ==> From(frames, nodes[g].allowed) == Outgoing(nodes[g]))
  }

  lemma {:induction false} OnlyFrom(frames: seq<Frame>, streams: set<U32>, s: U32)
    requires s in streams
    ensures Only(From(frames, streams), s) == Only(frames, s)
  {
    if frames != [] {
      var front, f := frames[..|frames| - 1], frames[|frames| - 1];
      OnlyFrom(front, streams, s);
      if f.stream in streams { OnlySnoc(From(front, streams), f, s); }
    }
  }

  lemma {:induction false} FromPrefix(frames: seq<Frame>, n: nat, streams: set<U32>)
    requires n <= |frames|
    ensures |From(frames[..n], streams)| <= |From(frames, streams)|
    ensures From(frames[..n], streams) == From(frames, streams)[..|From(frames[..n], streams)|]
    ensures n < |frames| && frames[n].stream in streams ==> |From(frames[..n], streams)| < |From(frames, streams)|
    decreases |frames|
  {
    if n == |frames| {
      assert frames[..n] == frames;
    } else {
      var front := frames[..|frames| - 1];
      assert front[..n] == frames[..n];
      FromPrefix(front, n, streams);
      assert n < |front| ==> front[n] == frames[n];
    }
  }

  lemma {:induction false} NodeStream(prefixes: map<U32, Bytes>, nodes: map<string, Attachment>, frames: seq<Frame>, g: string,
          s: U32)
    requires RelayedSession(prefixes, nodes, frames) && g in nodes && s in nodes[g].allowed
    ensures Only(frames, s) == Only(Outgoing(nodes[g]), s)
  {
    OnlyFrom(frames, nodes[g].allowed, s);
  }

  /** The reader accepts a message list exactly if it would accept each stream alone. */
  lemma {:induction false} AcceptedAgrees(prefixes: map<U32, Bytes>, messages: seq<Bytes>, frames: seq<Frame>, n: nat)
    requires Carries(messages, frames) && n <= |frames| && After(prefixes, messages[..n]).Some?
    ensures Agrees(prefixes, After(prefixes, messages[..n]).value, frames[..n])
  {
    if n == 0 {
      assert messages[..0] == [] && frames[..0] == [];
    } else {
      var m := n - 1;
      assert messages[..n][..m] == messages[..m] && frames[..n] == frames[..m] + [frames[m]];
      AcceptedAgrees(prefixes, messages, frames, m);
      AfterNext(prefixes, messages, m);
      forall s | s in prefixes
        ensures Some(After(prefixes, messages[..n]).value[s]) == StreamAfter(prefixes[s], Only(frames[..n], s))
      {
        OnlySnoc(frames[..m], frames[m], s);
        if frames[m].stream == s { StreamSnoc(prefixes[s], Only(frames[..m], s), frames[m]); }
      }
    }
  }

  lemma {:induction false} AfterPrefix(prefixes: map<U32, Bytes>, messages: seq<Bytes>, n: nat)
    requires n <= |messages| && After(prefixes, messages).Some?
    ensures After(prefixes, messages[..n]).Some?
    decreases |messages|
  {
    if n < |messages| {
      var front := messages[..|messages| - 1];
      assert front[..n] == messages[..n];
      AfterPrefix(prefixes, front, n);
    } else {
      assert messages[..n] == messages;
    }
  }

  /** Before the last message some stream is open, so a reader without an error does not stop there. */
  lemma {:induction false} NeverEarly(prefixes: map<U32, Bytes>, nodes: map<string, Attachment>, messages: seq<Bytes>,
          frames: seq<Frame>, n: nat)
    requires RelayedSession(prefixes, nodes, frames) && Carries(messages, frames) && n < |messages|
    ensures var state := After(prefixes, messages[..n]); state.Some? ==> !AllEnded(state.value)
  {
    var t := frames[n].stream;
    assert t in prefixes.Keys;
    var g :| g in nodes && t in nodes[g].allowed;
    var a := nodes[g];
    FromPrefix(frames, n, a.allowed);
    var so := From(frames[..n], a.allowed);
    var s := OpenUntilLast(prefixes, a, |so|);
    OnlyFrom(frames[..n], a.allowed, s);
    if After(prefixes, messages[..n]).Some? { AcceptedAgrees(prefixes, messages, frames, n); }
  }

  ghost predicate AllClosable(nodes: map<string, Attachment>) {
    forall g, s :: g in nodes && s in nodes[g].allowed ==> Closable(nodes[g], s)
  }

  /** The node sent an error for the stream, or did not end it. */
  ghost predicate Broke(a: Attachment, s: U32) { Failing(Only(Passed(a), s)) || s !in FinalGate(a).ended }

  lemma {:induction false} SessionStream(prefixes: map<U32, Bytes>, nodes: map<string, Attachment>, frames: seq<Frame>, g: string,
          s: U32)
    requires RelayedSession(prefixes, nodes, frames) && g in nodes && s in nodes[g].allowed
    ensures s in prefixes
    ensures var r := StreamAfter(prefixes[s], Only(frames, s));
      && (r.Some? && r.value.ended <==> Closable(nodes[g], s))
      && (Closable(nodes[g], s) ==> (r.value.failed <==> Broke(nodes[g], s)))
  {
    NodeStream(prefixes, nodes, frames, g, s);
    OutgoingStream(prefixes[s], nodes[g], s);
  }

  lemma {:induction false} EndedIsClosable(prefixes: map<U32, Bytes>, nodes: map<string, Attachment>, messages: seq<Bytes>,
          frames: seq<Frame>)
    requires RelayedSession(prefixes, nodes, frames) && Carries(messages, frames)
    requires After(prefixes, messages).Some? && AllEnded(After(prefixes, messages).value)
    ensures AllClosable(nodes)
  {
    var n := |frames|;
    assert messages[..n] == messages && frames[..n] == frames;
    AcceptedAgrees(prefixes, messages, frames, n);
    forall g, s | g in nodes && s in nodes[g].allowed ensures Closable(nodes[g], s) {
      SessionStream(prefixes, nodes, frames, g, s);
    }
  }

  lemma {:induction false} ClosableStream(prefixes: map<U32, Bytes>, nodes: map<string, Attachment>, frames: seq<Frame>, s: U32)
    requires RelayedSession(prefixes, nodes, frames) && AllClosable(nodes) && s in prefixes
    ensures var r := StreamAfter(prefixes[s], Only(frames, s)); r.Some? && r.value.ended
  {
    assert s in prefixes.Keys;
    var g :| g in nodes && s in nodes[g].allowed;
    SessionStream(prefixes, nodes, frames, g, s);
  }

  lemma {:induction false} ClosableEnds(prefixes: map<U32, Bytes>, nodes: map<string, Attachment>, messages: seq<Bytes>,
          frames: seq<Frame>)
    requires RelayedSession(prefixes, nodes, frames) && Carries(messages, frames) && AllClosable(nodes)
    ensures var r := After(prefixes, messages);
      && r.Some? && AllEnded(r.value)
      && forall g, s :: g in nodes && s in nodes[g].allowed ==> (r.value[s].failed <==> Broke(nodes[g], s))
  {
    var n := |frames|;
    assert messages[..n] == messages && frames[..n] == frames;
    forall s | s in prefixes ensures var r := StreamAfter(prefixes[s], Only(frames, s)); r.Some? && r.value.ended {
      ClosableStream(prefixes, nodes, frames, s);
    }
    Interleaved(prefixes, messages, frames, n);
    EndedReports(prefixes, nodes, frames, After(prefixes, messages).value);
  }

  lemma {:induction false} EndedReports(prefixes: map<U32, Bytes>, nodes: map<string, Attachment>, frames: seq<Frame>,
          state: Streams)
    requires RelayedSession(prefixes, nodes, frames) && AllClosable(nodes) && Agrees(prefixes, state, frames)
    ensures AllEnded(state)
    ensures forall g, s :: g in nodes && s in nodes[g].allowed ==> s in state && (state[s].failed <==> Broke(nodes[g], s))
  {
    forall s | s in prefixes ensures state[s].ended { ClosableStream(prefixes, nodes, frames, s); }
    forall g, s | g in nodes && s in nodes[g].allowed ensures s in state && (state[s].failed <==> Broke(nodes[g], s)) {
      SessionStream(prefixes, nodes, frames, g, s);
    }
  }

  /**
   * Whatever the agents send before they go away, the reader's loop runs to the last message without an error and ends
   * there with every stream ended, exactly if each stream ended or can be closed. It never stops earlier without an
   * error, and it reports a stream failed exactly if its agent sent an error or did not end it.
   */
  lemma {:induction false} RelayEndsSession(prefixes: map<U32, Bytes>, nodes: map<string, Attachment>, messages: seq<Bytes>,
          frames: seq<Frame>)
    requires RelayedSession(prefixes, nodes, frames) && Carries(messages, frames)
    ensures After(prefixes, messages).Some? && AllEnded(After(prefixes, messages).value) <==> AllClosable(nodes)
    ensures forall n :: 0 <= n < |messages| && After(prefixes, messages[..n]).Some? ==> Reading(prefixes, messages, n)
    ensures AllClosable(nodes) ==>
              && (forall n :: 0 <= n < |messages| ==> Reading(prefixes, messages, n))
              && forall g, s :: g in nodes && s in nodes[g].allowed ==>
                   (After(prefixes, messages).value[s].failed <==> Broke(nodes[g], s))
  {
    forall n | 0 <= n < |messages| && After(prefixes, messages[..n]).Some? ensures Reading(prefixes, messages, n) {
      NeverEarly(prefixes, nodes, messages, frames, n);
    }
    if After(prefixes, messages).Some? && AllEnded(After(prefixes, messages).value) {
      EndedIsClosable(prefixes, nodes, messages, frames);
    }
    if AllClosable(nodes) {
      ClosableEnds(prefixes, nodes, messages, frames);
      forall n | 0 <= n < |messages| ensures After(prefixes, messages[..n]).Some? {
        AfterPrefix(prefixes, messages, n);
      }
    }
  }

  /** Where the reader's loop stops on such a session. */
  lemma {:induction false} ReaderStops(prefixes: map<U32, Bytes>, nodes: map<string, Attachment>, messages: seq<Bytes>,
          frames: seq<Frame>, n: nat, streams: Streams)
    requires RelayedSession(prefixes, nodes, frames) && Carries(messages, frames) && Reached(prefixes, messages, n, streams)
    requires AllEnded(streams) || n == |messages| || After(prefixes, messages[..n + 1]).None?
    ensures AllEnded(streams) <==> AllClosable(nodes)
    ensures AllEnded(streams) ==> n == |messages| && After(prefixes, messages) == Some(streams)
  {
    if n == |messages| {
      assert messages[..n] == messages;
      if AllEnded(streams) { EndedIsClosable(prefixes, nodes, messages, frames); }
      if AllClosable(nodes) { ClosableEnds(prefixes, nodes, messages, frames); }
    } else {
      NeverEarly(prefixes, nodes, messages, frames, n);
      if AllClosable(nodes) {
        ClosableEnds(prefixes, nodes, messages, frames);
        AfterPrefix(prefixes, messages, n + 1);
        assert false;
      }
    }
  }

  /** The reader on such a session: it succeeds exactly if every stream can be closed, and reports what broke. */
  method ReadSession(prefixes: map<U32, Bytes>, messages: seq<Bytes>, ghost nodes: map<string, Attachment>,
          ghost frames: seq<Frame>) returns (ok: bool, consumed: nat, streams: Streams)
    requires RelayedSession(prefixes, nodes, frames) && Carries(messages, frames)
    ensures ok <==> AllClosable(nodes)
    ensures ok ==> consumed == |messages| && streams.Keys == prefixes.Keys && AllEnded(streams)
    ensures ok ==> forall g, s :: g in nodes && s in nodes[g].allowed ==> (streams[s].failed <==> Broke(nodes[g], s))
  {
    var reader := new Reader(prefixes);
    ok, consumed := reader.Receive(messages);
    streams := reader.streams;
    ReaderStops(prefixes, nodes, messages, frames, consumed, streams);
    RelayEndsSession(prefixes, nodes, messages, frames);
  }

  // ----- the one stream that cannot be closed -----

  lemma {:induction false} StopsAtEnd(allowed: set<U32>, incoming: seq<Bytes>, gate: Gate, i: nat)
    requires i <= |incoming| && GateAfter(allowed, incoming[..i]) == Some(gate)
    requires forall p :: i < p <= |incoming| ==> GateAfter(allowed, incoming[..p]).Some?
    requires forall p :: i < p < |incoming| ==> GateAfter(allowed, incoming[..p]).value.ended != allowed
    ensures Stop(allowed, gate, incoming, i) == |incoming|
    decreases |incoming| - i
  {
    if i < |incoming| {
      var j := i + 1;
      GateNext(allowed, incoming, i);
      assert GateAfter(allowed, incoming[..j]).Some?;
      if j < |incoming| { StopsAtEnd(allowed, incoming, GateAfter(allowed, incoming[..j]).value, j); }
    }
  }

  function Filler(s: U32, k: nat): Frame { Frame(Data, Stdout, 0, s, Number(k), []) }

  /** The messages of n empty data frames. */
  function Fillers(s: U32, n: nat): seq<Bytes> { EncodeAll(seq(n, k requires 0 <= k => Filler(s, k))) }

  function FillerGate(s: U32, n: nat): Gate { Gate(if n == 0 then map[] else map[s := Number(n - 1)], {}) }

  lemma {:induction false} FillerPasses(s: U32, n: nat, message: Bytes)
    requires Decode(message) == Some(Filler(s, n))
    ensures Pass({s}, FillerGate(s, n), message) == Some(FillerGate(s, n + 1))
  {
    if n > 0 { NextNumber(n - 1); }
    assert FillerGate(s, n).last[s := Number(n)] == map[s := Number(n)];
  }

  lemma {:induction false} FillersPass(s: U32, n: nat, p: nat)
    requires p <= n
    ensures GateAfter({s}, Fillers(s, n)[..p]) == Some(FillerGate(s, p))
  {
    var messages := Fillers(s, n);
    if p == 0 {
      assert messages[..0] == [];
    } else {
      var m := p - 1;
      FillersPass(s, n, m);
      GateNext({s}, messages, m);
      DecodeEncode(Filler(s, m));
      FillerPasses(s, m, messages[m]);
    }
  }

  lemma {:induction false} FromAll(frames: seq<Frame>, streams: set<U32>)
    requires forall i :: 0 <= i < |frames| ==> frames[i].stream in streams
    ensures From(frames, streams) == frames
  {
    if frames != [] {
      FromAll(frames[..|frames| - 1], streams);
      assert frames == frames[..|frames| - 1] + [frames[|frames| - 1]];
    }
  }

  lemma {:induction false} FillersStayOpen(s: U32)
    ensures var a := Attached({s}, Fillers(s, MAX_U64), None);
      FinalGate(a) == FillerGate(s, MAX_U64) && !Closable(a, s)
  {
    var messages := Fillers(s, MAX_U64);
    var a := Attached({s}, messages, None);
    forall p | 0 <= p <= |messages| ensures GateAfter({s}, messages[..p]) == Some(FillerGate(s, p)) {
      FillersPass(s, MAX_U64, p);
    }
    assert messages[..0] == [] && messages[..|messages|] == messages;
    StopsAtEnd({s}, messages, OPEN, 0);
    var stream := AllTracks([], a, s);
  }

  /**
   * An agent that goes away after 2^64 - 1 frames of a stream: the number of the end that the relay adds wraps around,
   * and the reader fails.
   */
  lemma {:induction false} WrapBreaksSession(prefix: Bytes, s: U32)
    ensures var a := Attached({s}, Fillers(s, MAX_U64), None);
      var prefixes, nodes := map[s := prefix], map["node" := a];
      && RelayedSession(prefixes, nodes, Outgoing(a)) && Carries(Delivery(a), Outgoing(a))
      && !AllClosable(nodes) && After(prefixes, Delivery(a)) == None
  {
    var a := Attached({s}, Fillers(s, MAX_U64), None);
    var prefixes, nodes := map[s := prefix], map["node" := a];
    SoloSession(prefix, a, s);
    FillersStayOpen(s);
    assert s in nodes["node"].allowed;
    WrapFails(prefix, a, s);
    SoloRefused(prefix, a, s);
  }

  lemma {:induction false} SoloSession(prefix: Bytes, a: Attachment, s: U32)
    requires a.allowed == {s}
    ensures RelayedSession(map[s := prefix], map["node" := a], Outgoing(a)) && Carries(Delivery(a), Outgoing(a))
  {
    DeliveryCarries(a);
    FromAll(Outgoing(a), a.allowed);
    SoloPartition(a, s);
  }

  lemma {:induction false} SoloPartition(a: Attachment, s: U32)
    requires a.allowed == {s}
    ensures Partition({s}, map["node" := a])
  {
    var nodes := map["node" := a];
    assert "node" in nodes && nodes["node"] == a;
  }

  lemma {:induction false} SoloRefused(prefix: Bytes, a: Attachment, s: U32)
    requires StreamAfter(prefix, Only(Outgoing(a), s)) == None
    ensures After(map[s := prefix], Delivery(a)) == None
  {
    var prefixes, messages, frames := map[s := prefix], Delivery(a), Outgoing(a);
    DeliveryCarries(a);
    if After(prefixes, messages).Some? {
      var n := |messages|;
      assert messages[..n] == messages && frames[..n] == frames;
      AcceptedAgrees(prefixes, messages, frames, n);
    }
  }

  lemma {:induction false} WrapFails(prefix: Bytes, a: Attachment, s: U32)
    requires s in a.allowed && !Closable(a, s)
    ensures StreamAfter(prefix, Only(Outgoing(a), s)) == None
  {
    var gate, own := FinalGate(a), Only(Passed(a), s);
    var stream := AllTracks(prefix, a, s);
    OnlyOutgoing(a, s);
    ClosedStream(prefix, own, gate, s, stream, ReasonOf(a));
  }

  // ----- from the sources to the reader -----

  /** The relay lets through whatever the reader would accept. */
  lemma {:induction false} GateFollows(prefixes: map<U32, Bytes>, messages: seq<Bytes>, n: nat)
    requires n <= |messages| && After(prefixes, messages[..n]).Some?
    ensures var state, gate := After(prefixes, messages[..n]).value, GateAfter(prefixes.Keys, messages[..n]);
      && gate.Some? && gate.value.ended <= prefixes.Keys
      && forall s :: s in prefixes ==>
           (s in gate.value.ended <==> state[s].ended) && Due(gate.value, s) == Expected(state[s])
  {
    if n == 0 {
      assert messages[..0] == [];
    } else {
      var m := n - 1;
      assert messages[..n][..m] == messages[..m];
      GateFollows(prefixes, messages, m);
      AfterNext(prefixes, messages, m);
      GateNext(prefixes.Keys, messages, m);
    }
  }

  lemma {:induction false} GateStillOpen(prefixes: map<U32, Bytes>, messages: seq<Bytes>, n: nat)
    requires n <= |messages| && Reading(prefixes, messages, n)
    ensures var gate := GateAfter(prefixes.Keys, messages[..n]); gate.Some? && gate.value.ended != prefixes.Keys
  {
    GateFollows(prefixes, messages, n);
    var state := After(prefixes, messages[..n]).value;
    var s :| s in state && !state[s].ended;
  }

  lemma {:induction false} SessionStops(prefixes: map<U32, Bytes>, incoming: seq<Bytes>)
    requires After(prefixes, incoming).Some? && forall n :: 0 <= n < |incoming| ==> Reading(prefixes, incoming, n)
    ensures Stop(prefixes.Keys, OPEN, incoming, 0) == |incoming|
  {
    assert incoming[..0] == [] && incoming[..|incoming|] == incoming;
    forall p | 0 <= p <= |incoming| ensures GateAfter(prefixes.Keys, incoming[..p]).Some? {
      assert p < |incoming| ==> Reading(prefixes, incoming, p);
      GateFollows(prefixes, incoming, p);
    }
    forall p | 0 <= p < |incoming| ensures GateAfter(prefixes.Keys, incoming[..p]).value.ended != prefixes.Keys {
      GateStillOpen(prefixes, incoming, p);
    }
    StopsAtEnd(prefixes.Keys, incoming, OPEN, 0);
  }

  lemma {:induction false} SourcesStop(prefixes: map<U32, Bytes>, sources: map<U32, Source>, incoming: seq<Bytes>,
          frames: seq<Frame>)
    requires prefixes.Keys == sources.Keys && Carries(incoming, frames) && Session(sources, frames)
    ensures Stop(prefixes.Keys, OPEN, incoming, 0) == |incoming|
  {
    SessionEnds(prefixes, sources, incoming, frames);
    SessionStops(prefixes, incoming);
  }

  /** The relay forwards all that well-behaved senders send. */
  lemma {:induction false} SessionForwarded(prefixes: map<U32, Bytes>, sources: map<U32, Source>, a: Attachment,
          frames: seq<Frame>)
    requires prefixes.Keys == sources.Keys == a.allowed && a.Attached?
    requires Carries(a.incoming, frames) && Session(sources, frames)
    ensures Forwarded(a) == a.incoming && Passed(a) == frames
  {
    SourcesStop(prefixes, sources, a.incoming, frames);
    assert a.incoming[..|a.incoming|] == a.incoming;
    PassedIs(a, frames);
  }

  lemma {:induction false} PassedIs(a: Attachment, frames: seq<Frame>)
    requires Carries(Forwarded(a), frames)
    ensures Passed(a) == frames
  {
  }

  /** The reader has the whole stream, and its end. */
  ghost predicate Complete(prefix: Bytes, source: Source, r: Option<Stream>) {
    && r.Some? && r.value.ended && (r.value.failed <==> source.failure.Some?)
    && Flatten(r.value.payloads) == Content(source)
    && (EvenLines(Content(source)) ==> r.value.printed == WholeOutput(prefix, Content(source), true))
  }

  /** One stream of a session, with what the relay adds. */
  lemma {:induction false} ClosedSource(prefix: Bytes, s: U32, source: Source, gate: Gate, stream: Stream, reason: Reason)
    requires Accepted(prefix, source, |Sent(s, source)|, stream) && StreamAfter(prefix, Sent(s, source)) == Some(stream)
    requires Expected(stream) == Due(gate, s) && (!Closes(source) ==> |SplitAll(source.chunks)| < MAX_U64)
    ensures Closes(source) ==> Complete(prefix, source, StreamAfter(prefix, Sent(s, source)))
    ensures !Closes(source) ==>
              Complete(prefix, source, StreamAfter(prefix, Sent(s, source) + [ErrorFrame(gate, s, reason), EndFrame(gate, s)]))
  {
    StreamComplete(prefix, s, source, stream);
    StillOpen(s, source, |Sent(s, source)|, prefix, stream);
    if !Closes(source) {
      var parts := SplitAll(source.chunks);
      NumberedConcat(s, parts, [], 0);
      if |parts| > 0 { NextNumber(|parts| - 1); }
      ClosedStream(prefix, Sent(s, source), gate, s, stream, reason);
      LeftAllJoin([], stream.payloads);
      assert [] + Flatten(stream.payloads) == Content(source);
      assert Cut(prefix, Content(source)) + [] == Cut(prefix, Content(source));
    }
  }

  lemma {:induction false} SourceAtReader(prefix: Bytes, s: U32, source: Source, a: Attachment)
    requires Only(Passed(a), s) == Sent(s, source) && s in a.allowed
    requires !Closes(source) ==> |SplitAll(source.chunks)| < MAX_U64
    ensures Complete(prefix, source, StreamAfter(prefix, Only(Outgoing(a), s)))
  {
    var gate, own := FinalGate(a), Sent(s, source);
    var tracked := AllTracks(prefix, a, s);
    var stream := SentAccepted(prefix, s, source, |own|);
    assert own[..|own|] == own;
    StillOpen(s, source, |own|, prefix, stream);
    OnlyOutgoing(a, s);
    ClosedSource(prefix, s, source, gate, stream, ReasonOf(a));
  }

  function Within<T>(m: map<U32, T>, keys: set<U32>): map<U32, T> { map s | s in m && s in keys :: m[s] }

  /** Each attached node's messages are an interleaving of what its own senders send. */
  ghost predicate Sourced(sources: map<U32, Source>, nodes: map<string, Attachment>, heard: map<string, seq<Frame>>) {
    forall g :: g in nodes && nodes[g].Attached? ==>
      && g in heard && nodes[g].allowed <= sources.Keys
      && Carries(nodes[g].incoming, heard[g]) && Session(Within(sources, nodes[g].allowed), heard[g])
  }

  lemma {:induction false} NodeComplete(prefixes: map<U32, Bytes>, sources: map<U32, Source>, nodes: map<string, Attachment>,
          heard: map<string, seq<Frame>>, g: string, s: U32)
    requires Sourced(sources, nodes, heard) && g in nodes && nodes[g].Attached? && s in nodes[g].allowed
    requires nodes[g].allowed <= prefixes.Keys
    requires !Closes(sources[s]) ==> |SplitAll(sources[s].chunks)| < MAX_U64
    ensures Complete(prefixes[s], sources[s], StreamAfter(prefixes[s], Only(Outgoing(nodes[g]), s)))
  {
    var a := nodes[g];
    assert Within(prefixes, a.allowed).Keys == Within(sources, a.allowed).Keys == a.allowed;
    SessionForwarded(Within(prefixes, a.allowed), Within(sources, a.allowed), a, heard[g]);
    SourceAtReader(prefixes[s], s, sources[s], a);
  }

  /** A stream of an offline node is closed at once. */
  lemma {:induction false} OfflineStream(prefix: Bytes, a: Attachment, s: U32)
    requires a.OfflineNode? && s in a.allowed
    ensures var r := StreamAfter(prefix, Only(Outgoing(a), s));
      r.Some? && r.value.ended && r.value.failed && r.value.payloads == []
  {
    assert FinalGate(a) == OPEN && Passed(a) == [] && Only([], s) == [];
    OnlyConcat([], ClosingOf(a), s);
    OnlyClosing(OPEN, a.allowed - OPEN.ended, Offline, s);
    ClosedStream(prefix, [], OPEN, s, FRESH, Offline);
  }

  /**
   * From the sources to the reader, for every interleaving of several nodes: every stream ends with the last message and
   * not before, a stream of a live node is reported failed exactly if its source failed, its bytes are complete, and
   * with even lines its output is that of the whole content. The streams of offline nodes are reported failed.
   */
  lemma {:induction false} SourcesReachReader(prefixes: map<U32, Bytes>, sources: map<U32, Source>,
          nodes: map<string, Attachment>, heard: map<string, seq<Frame>>, messages: seq<Bytes>, frames: seq<Frame>)
    requires RelayedSession(prefixes, nodes, frames) && Carries(messages, frames) && Sourced(sources, nodes, heard)
    requires forall t :: t in sources && !Closes(sources[t]) ==> |SplitAll(sources[t].chunks)| < MAX_U64
    ensures AllClosable(nodes) && After(prefixes, messages).Some? && AllEnded(After(prefixes, messages).value)
    ensures forall n :: 0 <= n < |messages| ==> Reading(prefixes, messages, n)
    ensures forall g, s :: g in nodes && s in nodes[g].allowed ==>
              var stream := After(prefixes, messages).value[s];
              if nodes[g].Attached? then s in sources && Complete(prefixes[s], sources[s], Some(stream))
              else stream.failed && stream.payloads == []
  {
    forall g, s | g in nodes && s in nodes[g].allowed ensures Closable(nodes[g], s) {
      ReachesReader(prefixes, sources, nodes, heard, frames, g, s);
      SessionStream(prefixes, nodes, frames, g, s);
    }
    RelayEndsSession(prefixes, nodes, messages, frames);
    assert messages[..|frames|] == messages && frames[..|frames|] == frames;
    AcceptedAgrees(prefixes, messages, frames, |frames|);
    forall g, s | g in nodes && s in nodes[g].allowed
      ensures var stream := After(prefixes, messages).value[s];
        if nodes[g].Attached? then s in sources && Complete(prefixes[s], sources[s], Some(stream))
        else stream.failed && stream.payloads == []
    {
      ReachesReader(prefixes, sources, nodes, heard, frames, g, s);
    }
  }

  lemma {:induction false} ReachesReader(prefixes: map<U32, Bytes>, sources: map<U32, Source>, nodes: map<string, Attachment>,
          heard: map<string, seq<Frame>>, frames: seq<Frame>, g: string, s: U32)
    requires RelayedSession(prefixes, nodes, frames) && Sourced(sources, nodes, heard)
    requires forall t :: t in sources && !Closes(sources[t]) ==> |SplitAll(sources[t].chunks)| < MAX_U64
    requires g in nodes && s in nodes[g].allowed
    ensures s in prefixes
    ensures var r := StreamAfter(prefixes[s], Only(frames, s));
      && r.Some? && r.value.ended
      && if nodes[g].Attached? then s in sources && Complete(prefixes[s], sources[s], r)
         else r.value.failed && r.value.payloads == []
  {
    NodeStream(prefixes, nodes, frames, g, s);
    if nodes[g].Attached? {
      NodeComplete(prefixes, sources, nodes, heard, g, s);
    } else {
      OfflineStream(prefixes[s], nodes[g], s);
    }
  }
}
