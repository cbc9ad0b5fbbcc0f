/** The controller between one agent and the reader: it checks, forwards, and closes what the agent left open. */
module LogRelay {
  import opened Sets
  import opened Wrappers
  import opened DataFrames
  import opened LogStreams
  import opened LogReceiver
  import opened RelayReasons

  /** The last sequence number of each stream, and the streams that have ended. */
  datatype Gate = Gate(last: map<U32, U64>, ended: set<U32>)

  const OPEN := Gate(map[], {})

  function Due(gate: Gate, s: U32): U64 {
    if s in gate.last then Next(gate.last[s]) else 0
  }

  /** None makes the relay drop the agent. */
  function Pass(allowed: set<U32>, gate: Gate, message: Bytes): Option<Gate> {
    match Decode(message)
    case None => None
    case Some(f) =>
      if f.stream !in allowed || !(f.kind.Data? || f.kind.End? || f.kind.Error?) || f.sequence != Due(gate, f.stream) then None
      else Some(Gate(gate.last[f.stream := f.sequence], if f.kind.End? then gate.ended + {f.stream} else gate.ended))
  }

  function GateAfter(allowed: set<U32>, messages: seq<Bytes>): Option<Gate> {
    if messages == [] then Some(OPEN)
    else match GateAfter(allowed, messages[..|messages| - 1])
      case None => None
      case Some(gate) => Pass(allowed, gate, messages[|messages| - 1])
  }

  /** How many messages are forwarded before a refusal, the disconnect or the end of the last stream. */
  function Stop(allowed: set<U32>, gate: Gate, incoming: seq<Bytes>, i: nat): (n: nat)
    requires i <= |incoming|
    ensures i <= n <= |incoming|
    decreases |incoming| - i
  {
    if i == |incoming| then i
    else match Pass(allowed, gate, incoming[i])
      case None => i
      case Some(next) => if next.ended == allowed then i + 1 else Stop(allowed, next, incoming, i + 1)
  }

  /** Why a message makes the relay drop the agent. */
  function Refusal(allowed: set<U32>, gate: Gate, message: Bytes): Reason
    requires Pass(allowed, gate, message).None?
  {
    match Decode(message)
    case None => Undecodable(Fault(message))
    case Some(f) =>
      if f.stream !in allowed then Unassigned(f.stream)
      else if !(f.kind.Data? || f.kind.End? || f.kind.Error?) then Disallowed(f.kind)
      else Unexpected(f.stream, f.sequence, Due(gate, f.stream))
  }

  /** A message is refused exactly for one of these reasons, and the one named is true of it. */
  lemma {:induction false} RefusalIsTrue(allowed: set<U32>, gate: Gate, message: Bytes)
    ensures Pass(allowed, gate, message).None? <==>
            match Decode(message)
            case None => true
            case Some(f) =>
              || f.stream !in allowed || f.kind.WindowUpdate? || f.kind.Resize? || f.kind.Signal?
              || f.sequence != (if f.stream in gate.last then Next(gate.last[f.stream]) else 0)
    ensures Pass(allowed, gate, message).None? ==>
              match Refusal(allowed, gate, message)
              case Undecodable(fault) => Decode(message).None?
              case Unassigned(stream) =>
                Decode(message).Some? && Decode(message).value.stream == stream && stream !in allowed
              case Disallowed(kind) =>
                Decode(message).Some? && Decode(message).value.kind == kind && (kind.WindowUpdate? || kind.Resize? || kind.Signal?)
              case Unexpected(stream, sequence, expected) =>
                && Decode(message).Some? && Decode(message).value.stream == stream && stream in allowed
                && Decode(message).value.sequence == sequence != expected
                && expected == (if stream in gate.last then Next(gate.last[stream]) else 0)
              case _ => false
  {
  }

  /** The reason in force after i messages; without a refusal the connection closed, or failed with an error. */
  function ReasonAt(allowed: set<U32>, gate: Gate, incoming: seq<Bytes>, i: nat, failure: Option<LibraryText>): Reason {
    if i < |incoming| && Pass(allowed, gate, incoming[i]).None? then Refusal(allowed, gate, incoming[i])
    else match failure
      case None => Disconnected
      case Some(error) => SocketFailed(error)
  }

  // ----- closing -----

  /** The successor of a sequence number as unchecked 64-bit addition gives it. */
  function Wrapped(sequence: U64): U64 { if sequence == MAX_U64 then 0 else sequence + 1 }

  function ErrorFrame(gate: Gate, s: U32, reason: Reason): Frame { Frame(Error, System, 0, s, Due(gate, s), ReasonBytes(reason)) }

  function EndFrame(gate: Gate, s: U32): Frame { Frame(End, System, 0, s, Wrapped(Due(gate, s)), []) }

  /** An error and an end for each stream. */
  function ClosingFrames(gate: Gate, order: seq<U32>, reason: Reason): seq<Frame> {
    if order == [] then []
    else [ErrorFrame(gate, order[0], reason), EndFrame(gate, order[0])] + ClosingFrames(gate, order[1..], reason)
  }

  ghost predicate IsLeast(s: U32, streams: set<U32>) { s in streams && forall t :: t in streams ==> s <= t }

  lemma {:induction false} LeastExists(streams: set<U32>)
    requires streams != {}
    ensures exists s :: IsLeast(s, streams)
    decreases |streams|
  {
    var x :| x in streams;
    if streams == {x} {
      assert IsLeast(x, streams);
    } else {
      LeastExists(streams - {x});
      var y :| IsLeast(y, streams - {x});
      forall t | t in streams ensures x <= t || y <= t { assert t == x || t in streams - {x}; }
      if x < y {
        assert IsLeast(x, streams);
      } else {
        assert IsLeast(y, streams);
      }
    }
  }

  ghost function Least(streams: set<U32>): (s: U32)
    requires streams != {}
    ensures IsLeast(s, streams)
  {
    LeastExists(streams);
    var s :| IsLeast(s, streams);
    s
  }

  /** The streams of a set in ascending order. */
  ghost function Order(streams: set<U32>): seq<U32>
    decreases |streams|
  {
    if streams == {} then [] else [Least(streams)] + Order(streams - {Least(streams)})
  }

  method LeastOf(streams: set<U32>) returns (s: U32)
    requires streams != {}
    ensures s in streams && forall t :: t in streams ==> s <= t
  {
    s :| s in streams;
    var todo := streams - {s};
    while todo != {}
      invariant todo <= streams && s in streams && forall t :: t in streams && t !in todo ==> s <= t
      decreases todo
    {
      var t :| t in todo;
      if t < s { s := t; }
      todo := todo - {t};
    }
  }

  lemma {:induction false} ClosingStep(gate: Gate, rest: set<U32>, s: U32, reason: Reason)
    requires IsLeast(s, rest)
    ensures ClosingFrames(gate, Order(rest), reason)
            == [ErrorFrame(gate, s, reason), EndFrame(gate, s)] + ClosingFrames(gate, Order(rest - {s}), reason)
  {
    assert Least(rest) == s;
    assert Order(rest)[1..] == Order(rest - {s});
  }

  lemma {:induction false} ClosingMore(added: seq<Frame>, gate: Gate, rest: set<U32>, s: U32, reason: Reason)
    requires IsLeast(s, rest)
    ensures added + ClosingFrames(gate, Order(rest), reason)
            == added + [ErrorFrame(gate, s, reason), EndFrame(gate, s)] + ClosingFrames(gate, Order(rest - {s}), reason)
  {
    ClosingStep(gate, rest, s, reason);
  }

  /** Sends an error and an end for each open stream, in order; every reason can be encoded. */
  method CloseOpen(gate: Gate, open: set<U32>, reason: Reason) returns (added: seq<Frame>)
    ensures added == ClosingFrames(gate, Order(open), reason)
  {
    added := [];
    var rest := open;
    while rest != {}
      invariant added + ClosingFrames(gate, Order(rest), reason) == ClosingFrames(gate, Order(open), reason)
      decreases rest
    {
      var s := LeastOf(rest);
      ClosingMore(added, gate, rest, s, reason);
      added := added + [ErrorFrame(gate, s, reason), EndFrame(gate, s)];
      rest := rest - {s};
    }
  }

  // ----- one connection -----

  lemma {:induction false} GateNext(allowed: set<U32>, messages: seq<Bytes>, n: nat)
    requires n < |messages| && GateAfter(allowed, messages[..n]).Some?
    ensures GateAfter(allowed, messages[..n + 1]) == Pass(allowed, GateAfter(allowed, messages[..n]).value, messages[n])
  {
    assert messages[..n + 1][..n] == messages[..n];
  }

  /**
   * One node's part of a session: its streams, and, if it is live, the messages of its connection and how that failed
   * in the end. For a node that is offline the controller closes the streams at once.
   */
  datatype Attachment =
    | Attached(allowed: set<U32>, incoming: seq<Bytes>, failure: Option<LibraryText>)
    | OfflineNode(allowed: set<U32>)

  function Forwarded(a: Attachment): seq<Bytes> {
    if a.OfflineNode? then [] else a.incoming[..Stop(a.allowed, OPEN, a.incoming, 0)]
  }

  lemma {:induction false} StopIsReached(allowed: set<U32>, incoming: seq<Bytes>, gate: Gate, i: nat)
    requires i <= |incoming| && GateAfter(allowed, incoming[..i]) == Some(gate)
    ensures GateAfter(allowed, incoming[..Stop(allowed, gate, incoming, i)]).Some?
    decreases |incoming| - i
  {
    if i < |incoming| {
      GateNext(allowed, incoming, i);
      var next := Pass(allowed, gate, incoming[i]);
      if next.Some? && next.value.ended != allowed { StopIsReached(allowed, incoming, next.value, i + 1); }
    }
  }

  lemma {:induction false} OpenBeforeStop(allowed: set<U32>, incoming: seq<Bytes>, gate: Gate, i: nat, p: nat)
    requires i <= |incoming| && GateAfter(allowed, incoming[..i]) == Some(gate) && i < p < Stop(allowed, gate, incoming, i)
    ensures GateAfter(allowed, incoming[..p]).Some? && GateAfter(allowed, incoming[..p]).value.ended != allowed
    decreases |incoming| - i
  {
    var j := i + 1;
    GateNext(allowed, incoming, i);
    var next := Pass(allowed, gate, incoming[i]).value;
    if p > j { OpenBeforeStop(allowed, incoming, next, j, p); }
  }

  lemma {:induction false} ForwardedPasses(a: Attachment)
    ensures GateAfter(a.allowed, Forwarded(a)).Some?
  {
    if a.Attached? {
      assert a.incoming[..0] == [];
      StopIsReached(a.allowed, a.incoming, OPEN, 0);
    }
  }

  lemma {:induction false} ForwardedOpen(a: Attachment, p: nat)
    requires 0 < p < |Forwarded(a)|
    ensures GateAfter(a.allowed, Forwarded(a)[..p]).Some? && GateAfter(a.allowed, Forwarded(a)[..p]).value.ended != a.allowed
  {
    assert a.incoming[..0] == [] && Forwarded(a)[..p] == a.incoming[..p];
    OpenBeforeStop(a.allowed, a.incoming, OPEN, 0, p);
  }

  ghost function FinalGate(a: Attachment): Gate {
    ForwardedPasses(a);
    GateAfter(a.allowed, Forwarded(a)).value
  }

  ghost function ReasonOf(a: Attachment): Reason {
    if a.OfflineNode? then Offline
    else ReasonAt(a.allowed, FinalGate(a), a.incoming, Stop(a.allowed, OPEN, a.incoming, 0), a.failure)
  }

  ghost function ClosingOf(a: Attachment): seq<Frame> {
    ClosingFrames(FinalGate(a), Order(a.allowed - FinalGate(a).ended), ReasonOf(a))
  }

  /** What the reader gets from this node. */
  ghost function Delivery(a: Attachment): seq<Bytes> { Forwarded(a) + EncodeAll(ClosingOf(a)) }

  lemma {:induction false} Stopped(a: Attachment, gate: Gate, i: nat)
    requires a.Attached? && i <= |a.incoming| && GateAfter(a.allowed, a.incoming[..i]) == Some(gate)
    requires Stop(a.allowed, OPEN, a.incoming, 0) == i
    ensures Forwarded(a) == a.incoming[..i] && FinalGate(a) == gate
    ensures ReasonOf(a) == ReasonAt(a.allowed, gate, a.incoming, i, a.failure)
  {
  }

  /** The relay has forwarded i messages and goes on. */
  ghost predicate Serving(allowed: set<U32>, incoming: seq<Bytes>, i: nat, gate: Gate) {
    && i <= |incoming| && gate.ended <= allowed && GateAfter(allowed, incoming[..i]) == Some(gate)
    && Stop(allowed, OPEN, incoming, 0) == Stop(allowed, gate, incoming, i)
  }

  lemma {:induction false} ServingFirst(allowed: set<U32>, incoming: seq<Bytes>)
    ensures Serving(allowed, incoming, 0, OPEN) && incoming[..0] == []
  {
    assert incoming[..0] == [];
  }

  lemma {:induction false} ServingNext(allowed: set<U32>, incoming: seq<Bytes>, i: nat, gate: Gate)
    requires Serving(allowed, incoming, i, gate) && i < |incoming|
    ensures match Pass(allowed, gate, incoming[i])
      case None => Stop(allowed, OPEN, incoming, 0) == i
      case Some(next) =>
        && next.ended <= allowed && GateAfter(allowed, incoming[..i + 1]) == Some(next)
        && (if next.ended == allowed then Stop(allowed, OPEN, incoming, 0) == i + 1 else Serving(allowed, incoming, i + 1, next))
  {
    GateNext(allowed, incoming, i);
  }

  /** The forwarding loop. */
  method Forward(allowed: set<U32>, incoming: seq<Bytes>) returns (sent: seq<Bytes>, gate: Gate)
    ensures Stop(allowed, OPEN, incoming, 0) == |sent| && sent == incoming[..|sent|]
    ensures GateAfter(allowed, sent) == Some(gate)
  {
    gate, sent := OPEN, [];
    ServingFirst(allowed, incoming);
    for i := 0 to |incoming|
      invariant Serving(allowed, incoming, i, gate) && sent == incoming[..i]
    {
      ServingNext(allowed, incoming, i, gate);
      var next := Pass(allowed, gate, incoming[i]);
      if next.None? { return; }
      assert incoming[..i + 1] == incoming[..i] + [incoming[i]];
      gate, sent := next.value, sent + [incoming[i]];
      SubsetSize(gate.ended, allowed);
      if |gate.ended| == |allowed| { return; }
    }
  }

  /** Forwards until the agent is dropped or done, then closes what is open. */
  method Serve(allowed: set<U32>, incoming: seq<Bytes>, failure: Option<LibraryText>) returns (sent: seq<Bytes>)
    ensures sent == Delivery(Attached(allowed, incoming, failure))
  {
    var gate;
    sent, gate := Forward(allowed, incoming);
    Stopped(Attached(allowed, incoming, failure), gate, |sent|);
    var added := CloseOpen(gate, allowed - gate.ended, ReasonAt(allowed, gate, incoming, |sent|, failure));
    sent := sent + EncodeAll(added);
  }

  /** Closes the streams of an offline node. */
  method CloseOffline(streams: set<U32>) returns (sent: seq<Bytes>)
    ensures sent == Delivery(OfflineNode(streams))
  {
    ghost var a := OfflineNode(streams);
    assert FinalGate(a) == OPEN && a.allowed - FinalGate(a).ended == streams;
    var added := CloseOpen(OPEN, streams, Offline);
    sent := EncodeAll(added);
    assert Forwarded(a) + sent == sent;
  }

  // ----- what the relay lets through -----

  ghost predicate Failing(frames: seq<Frame>) { exists f :: f in frames && f.kind.Error? }

  /** The reader's view of a stream agrees with the relay's. */
  ghost predicate Tracks(prefix: Bytes, frames: seq<Frame>, gate: Gate, s: U32, stream: Stream) {
    var own := Only(frames, s);
    && StreamAfter(prefix, own) == Some(stream)
    && stream.last == (if s in gate.last then Some(gate.last[s]) else None)
    && Due(gate, s) == Number(|own|)
    && (stream.ended <==> s in gate.ended)
    && (stream.failed <==> Failing(own))
  }

  lemma {:induction false} FailingSnoc(frames: seq<Frame>, f: Frame)
    ensures Failing(frames + [f]) <==> Failing(frames) || f.kind.Error?
  {
    if f.kind.Error? { assert f in frames + [f]; }
    if Failing(frames) {
      var e :| e in frames && e.kind.Error?;
      assert e in frames + [f];
    }
  }

  lemma {:induction false} OnlySnoc(frames: seq<Frame>, f: Frame, s: U32)
    ensures Only(frames + [f], s) == if f.stream == s then Only(frames, s) + [f] else Only(frames, s)
  {
    assert (frames + [f])[..|frames|] == frames;
  }

  lemma {:induction false} StreamSnoc(prefix: Bytes, frames: seq<Frame>, f: Frame)
    requires StreamAfter(prefix, frames).Some?
    ensures StreamAfter(prefix, frames + [f]) == Accept(prefix, StreamAfter(prefix, frames).value, f)
  {
    assert (frames + [f])[..|frames|] == frames;
  }

  lemma {:induction false} PassOwn(allowed: set<U32>, gate: Gate, message: Bytes, f: Frame, s: U32)
    requires Decode(message) == Some(f) && Pass(allowed, gate, message).Some?
    ensures f.stream in allowed && f.sequence == Due(gate, f.stream) && (f.kind.Data? || f.kind.End? || f.kind.Error?)
    ensures var next := Pass(allowed, gate, message).value;
      && (s != f.stream ==> Due(next, s) == Due(gate, s) && (s in next.ended <==> s in gate.ended)
                            && (s in next.last <==> s in gate.last) && (s in gate.last ==> next.last[s] == gate.last[s]))
      && f.stream in next.last && next.last[f.stream] == f.sequence && Due(next, f.stream) == Next(f.sequence)
      && (f.stream in next.ended <==> f.stream in gate.ended || f.kind.End?)
  {
  }

  lemma {:induction false} AcceptOwn(prefix: Bytes, stream: Stream, f: Frame)
    requires f.sequence == Expected(stream) && (f.kind.Data? || f.kind.End? || f.kind.Error?)
    ensures var r := Accept(prefix, stream, f);
      && r.Some? && r.value.last == Some(f.sequence)
      && (r.value.ended <==> stream.ended || f.kind.End?) && (r.value.failed <==> stream.failed || f.kind.Error?)
  {
  }

  lemma {:induction false} TracksOwn(prefix: Bytes, frames: seq<Frame>, gate: Gate, stream: Stream, allowed: set<U32>,
          message: Bytes, f: Frame) returns (next: Stream)
    requires Tracks(prefix, frames, gate, f.stream, stream)
    requires Decode(message) == Some(f) && Pass(allowed, gate, message).Some?
    ensures Tracks(prefix, frames + [f], Pass(allowed, gate, message).value, f.stream, next)
  {
    var own := Only(frames, f.stream);
    OnlySnoc(frames, f, f.stream);
    PassOwn(allowed, gate, message, f, f.stream);
    AcceptOwn(prefix, stream, f);
    StreamSnoc(prefix, own, f);
    FailingSnoc(own, f);
    NextNumber(|own|);
    next := Accept(prefix, stream, f).value;
  }

  lemma {:induction false} TracksNext(prefix: Bytes, frames: seq<Frame>, gate: Gate, s: U32, stream: Stream,
          allowed: set<U32>, message: Bytes, f: Frame) returns (next: Stream)
    requires Tracks(prefix, frames, gate, s, stream) && Decode(message) == Some(f) && Pass(allowed, gate, message).Some?
    ensures Tracks(prefix, frames + [f], Pass(allowed, gate, message).value, s, next)
  {
    if f.stream == s {
      next := TracksOwn(prefix, frames, gate, stream, allowed, message, f);
    } else {
      OnlySnoc(frames, f, s);
      PassOwn(allowed, gate, message, f, s);
      next := stream;
    }
  }

  /** What the relay forwarded, the reader accepts. */
  lemma {:induction false} GateTracks(prefix: Bytes, allowed: set<U32>, messages: seq<Bytes>, frames: seq<Frame>, n: nat, s: U32)
      returns (stream: Stream)
    requires Carries(messages, frames) && n <= |frames| && GateAfter(allowed, messages[..n]).Some?
    ensures Tracks(prefix, frames[..n], GateAfter(allowed, messages[..n]).value, s, stream)
  {
    if n == 0 {
      assert messages[..0] == [] && frames[..0] == [];
      stream := FRESH;
    } else {
      var m := n - 1;
      assert messages[..n][..m] == messages[..m] && frames[..n] == frames[..m] + [frames[m]];
      var before := GateTracks(prefix, allowed, messages, frames, m, s);
      GateNext(allowed, messages, m);
      var gate := GateAfter(allowed, messages[..m]).value;
      stream := TracksNext(prefix, frames[..m], gate, s, before, allowed, messages[m], frames[m]);
    }
  }

  lemma {:induction false} OnlyConcat(a: seq<Frame>, b: seq<Frame>, s: U32)
    ensures Only(a + b, s) == Only(a, s) + Only(b, s)
  {
    if b == [] {
      assert a + b == a;
    } else {
      var front, f := b[..|b| - 1], b[|b| - 1];
      assert b == front + [f] && a + b == (a + front) + [f];
      OnlyConcat(a, front, s);
      OnlySnoc(a + front, f, s);
      OnlySnoc(front, f, s);
    }
  }

  lemma {:induction false} OnlyPair(before: seq<Frame>, e: Frame, f: Frame, s: U32)
    requires e.stream == f.stream
    ensures Only(before + [e, f], s) == if e.stream == s then Only(before, s) + [e, f] else Only(before, s)
  {
    assert before + [e, f] == before + [e] + [f];
    OnlySnoc(before, e, s);
    OnlySnoc(before + [e], f, s);
  }

  lemma {:induction false} OnlyClosing(gate: Gate, streams: set<U32>, reason: Reason, s: U32)
    ensures Only(ClosingFrames(gate, Order(streams), reason), s)
            == if s in streams then [ErrorFrame(gate, s, reason), EndFrame(gate, s)] else []
    decreases |streams|
  {
    if streams != {} {
      var t := Least(streams);
      var pair, rest := [ErrorFrame(gate, t, reason), EndFrame(gate, t)], ClosingFrames(gate, Order(streams - {t}), reason);
      ClosingStep(gate, streams, t, reason);
      OnlyClosing(gate, streams - {t}, reason, s);
      OnlyConcat(pair, rest, s);
      OnlyPair([], ErrorFrame(gate, t, reason), EndFrame(gate, t), s);
      assert [] + pair == pair;
    }
  }

  lemma {:induction false} ClosingFits(gate: Gate, streams: set<U32>, reason: Reason, i: nat)
    requires i < |ClosingFrames(gate, Order(streams), reason)|
    ensures var f := ClosingFrames(gate, Order(streams), reason)[i]; |f.payload| <= MAX_PAYLOAD && f.stream in streams
    decreases |streams|
  {
    var t := Least(streams);
    ReasonFits(reason);
    ClosingStep(gate, streams, t, reason);
    if i >= 2 { ClosingFits(gate, streams - {t}, reason, i - 2); }
  }

  /** Closing works exactly if the successor of the error's sequence number does not wrap around. */
  lemma {:induction false} ClosedStream(prefix: Bytes, own: seq<Frame>, gate: Gate, s: U32, stream: Stream, reason: Reason)
    requires StreamAfter(prefix, own) == Some(stream) && Expected(stream) == Due(gate, s)
    ensures StreamAfter(prefix, own + [ErrorFrame(gate, s, reason)])
            == Some(stream.(last := Some(Due(gate, s)), failed := true))
    ensures var r := StreamAfter(prefix, own + [ErrorFrame(gate, s, reason), EndFrame(gate, s)]);
      if Due(gate, s) < MAX_U64
      then r == Some(Stream(Some(Due(gate, s) + 1), true, true, [], stream.payloads,
                            stream.printed + Remainder(prefix, stream.buffer)))
      else r == None
  {
    var e, f := ErrorFrame(gate, s, reason), EndFrame(gate, s);
    assert own + [e, f] == own + [e] + [f];
    StreamSnoc(prefix, own, e);
    var failed := stream.(last := Some(Due(gate, s)), failed := true);
    assert Accept(prefix, stream, e) == Some(failed);
    StreamSnoc(prefix, own + [e], f);
    ClosedAccept(prefix, failed, gate, s);
  }

  lemma {:induction false} ClosedAccept(prefix: Bytes, failed: Stream, gate: Gate, s: U32)
    requires failed.last == Some(Due(gate, s)) && failed.failed
    ensures Accept(prefix, failed, EndFrame(gate, s))
            == if Due(gate, s) < MAX_U64
               then Some(Stream(Some(Due(gate, s) + 1), true, true, [], failed.payloads,
                                failed.printed + Remainder(prefix, failed.buffer)))
               else None
  {
  }

  // ----- what the reader gets -----

  function FramesOf(messages: seq<Bytes>): seq<Frame>
    requires forall i :: 0 <= i < |messages| ==> Decode(messages[i]).Some?
  {
    seq(|messages|, i requires 0 <= i < |messages| => Decode(messages[i]).value)
  }

  lemma {:induction false} GateDecodes(allowed: set<U32>, messages: seq<Bytes>, n: nat)
    requires n <= |messages| && GateAfter(allowed, messages[..n]).Some?
    ensures GateAfter(allowed, messages[..n]).value.ended <= allowed
    ensures forall i :: 0 <= i < n ==> Decode(messages[i]).Some? && Decode(messages[i]).value.stream in allowed
  {
    if n > 0 {
      var m := n - 1;
      assert messages[..n][..m] == messages[..m];
      GateDecodes(allowed, messages, m);
      GateNext(allowed, messages, m);
    }
  }

  ghost function Passed(a: Attachment): seq<Frame> {
    ForwardedPasses(a);
    assert Forwarded(a)[..|Forwarded(a)|] == Forwarded(a);
    GateDecodes(a.allowed, Forwarded(a), |Forwarded(a)|);
    FramesOf(Forwarded(a))
  }

  ghost function Outgoing(a: Attachment): seq<Frame> { Passed(a) + ClosingOf(a) }

  lemma {:induction false} CarriesMore(messages: seq<Bytes>, frames: seq<Frame>, added: seq<Frame>)
    requires Carries(messages, frames) && forall i :: 0 <= i < |added| ==> |added[i].payload| <= MAX_PAYLOAD
    ensures Carries(messages + EncodeAll(added), frames + added)
  {
    forall i | 0 <= i < |added| ensures Decode(EncodeAll(added)[i]) == Some(added[i]) {
      DecodeEncode(added[i]);
    }
  }

  /** The frames delivered are what the delivered messages say, and belong to this node's streams. */
  lemma {:induction false} DeliveryCarries(a: Attachment)
    ensures Carries(Forwarded(a), Passed(a)) && Carries(Delivery(a), Outgoing(a))
    ensures forall i :: 0 <= i < |Outgoing(a)| ==> Outgoing(a)[i].stream in a.allowed
  {
    ForwardedPasses(a);
    assert Forwarded(a)[..|Forwarded(a)|] == Forwarded(a);
    GateDecodes(a.allowed, Forwarded(a), |Forwarded(a)|);
    forall i | 0 <= i < |ClosingOf(a)| ensures |ClosingOf(a)[i].payload| <= MAX_PAYLOAD && ClosingOf(a)[i].stream in a.allowed {
      ClosingFits(FinalGate(a), a.allowed - FinalGate(a).ended, ReasonOf(a), i);
    }
    CarriesMore(Forwarded(a), Passed(a), ClosingOf(a));
  }

  /** The stream ended, or the relay can end it: the number after the error's does not wrap around. */
  ghost predicate Closable(a: Attachment, s: U32) {
    s in FinalGate(a).ended || |Only(Passed(a), s)| < MAX_U64
  }

  lemma {:induction false} PassedGate(a: Attachment, n: nat)
    requires n <= |Forwarded(a)|
    ensures GateAfter(a.allowed, Forwarded(a)[..n]).Some?
  {
    var messages := Forwarded(a);
    if n == |messages| {
      ForwardedPasses(a);
      assert messages[..n] == messages;
    } else if n == 0 {
      assert messages[..0] == [];
    } else {
      ForwardedOpen(a, n);
    }
  }

  lemma {:induction false} PassedTracks(prefix: Bytes, a: Attachment, n: nat, s: U32) returns (stream: Stream)
    requires n <= |Passed(a)|
    ensures GateAfter(a.allowed, Forwarded(a)[..n]).Some?
    ensures Tracks(prefix, Passed(a)[..n], GateAfter(a.allowed, Forwarded(a)[..n]).value, s, stream)
  {
    DeliveryCarries(a);
    PassedGate(a, n);
    stream := GateTracks(prefix, a.allowed, Forwarded(a), Passed(a), n, s);
  }

  lemma {:induction false} AllTracks(prefix: Bytes, a: Attachment, s: U32) returns (stream: Stream)
    ensures Tracks(prefix, Passed(a), FinalGate(a), s, stream)
  {
    var n := |Passed(a)|;
    assert Forwarded(a)[..n] == Forwarded(a) && Passed(a)[..n] == Passed(a);
    stream := PassedTracks(prefix, a, n, s);
  }

  lemma {:induction false} OnlyOutgoing(a: Attachment, s: U32)
    requires s in a.allowed
    ensures Only(Outgoing(a), s)
            == if s in FinalGate(a).ended then Only(Passed(a), s)
               else Only(Passed(a), s) + [ErrorFrame(FinalGate(a), s, ReasonOf(a)), EndFrame(FinalGate(a), s)]
  {
    var gate, own := FinalGate(a), Only(Passed(a), s);
    OnlyConcat(Passed(a), ClosingOf(a), s);
    OnlyClosing(gate, a.allowed - gate.ended, ReasonOf(a), s);
    assert own + [] == own;
  }

  /** One stream of a node, at the reader. */
  lemma {:induction false} OutgoingStream(prefix: Bytes, a: Attachment, s: U32)
    requires s in a.allowed
    ensures var r := StreamAfter(prefix, Only(Outgoing(a), s));
      && (r.Some? && r.value.ended <==> Closable(a, s))
      && (Closable(a, s) ==> (r.value.failed <==> Failing(Only(Passed(a), s)) || s !in FinalGate(a).ended))
  {
    var gate, own := FinalGate(a), Only(Passed(a), s);
    var stream := AllTracks(prefix, a, s);
    OnlyOutgoing(a, s);
    if s !in gate.ended { ClosedStream(prefix, own, gate, s, stream, ReasonOf(a)); }
  }

  lemma {:induction false} OpenWhilePassing(prefixes: map<U32, Bytes>, a: Attachment, p: nat) returns (s: U32)
    requires a.allowed <= prefixes.Keys && p < |Passed(a)|
    ensures s in a.allowed
    ensures var r := StreamAfter(prefixes[s], Only(Passed(a)[..p], s)); r.Some? && !r.value.ended
  {
    DeliveryCarries(a);
    var messages := Forwarded(a);
    if p == 0 {
      s := Passed(a)[0].stream;
      assert Outgoing(a)[0] == Passed(a)[0];
      assert Passed(a)[..0] == [];
    } else {
      ForwardedOpen(a, p);
      GateDecodes(a.allowed, messages, p);
      var gate := GateAfter(a.allowed, messages[..p]).value;
      s :| s in a.allowed && s !in gate.ended;
      var stream := PassedTracks(prefixes[s], a, p, s);
    }
  }

  /** When a frame of the closing part is due, its stream has had no end. */
  lemma {:induction false} ClosingPart(gate: Gate, streams: set<U32>, reason: Reason, q: nat)
    requires q < |ClosingFrames(gate, Order(streams), reason)|
    ensures var closing := ClosingFrames(gate, Order(streams), reason);
      var s := closing[q].stream;
      s in streams && (Only(closing[..q], s) == [] || Only(closing[..q], s) == [ErrorFrame(gate, s, reason)])
  {
    var closing := ClosingFrames(gate, Order(streams), reason);
    var s := closing[q].stream;
    ClosingFits(gate, streams, reason, q);
    OnlyClosing(gate, streams, reason, s);
    OnlyPrefix(closing, q, s);
  }

  lemma {:induction false} OpenWhileClosing(prefixes: map<U32, Bytes>, a: Attachment, q: nat) returns (s: U32)
    requires a.allowed <= prefixes.Keys && q < |ClosingOf(a)|
    ensures s in a.allowed
    ensures var r := StreamAfter(prefixes[s], Only(Passed(a) + ClosingOf(a)[..q], s)); r.Some? && !r.value.ended
  {
    var gate, closing := FinalGate(a), ClosingOf(a);
    s := closing[q].stream;
    ClosingPart(gate, a.allowed - gate.ended, ReasonOf(a), q);
    var own := Only(Passed(a), s);
    var stream := AllTracks(prefixes[s], a, s);
    OnlyConcat(Passed(a), closing[..q], s);
    ClosedStream(prefixes[s], own, gate, s, stream, ReasonOf(a));
    assert own + [] == own;
  }

  /** Until a node's last message some stream of it is open. */
  lemma {:induction false} OpenUntilLast(prefixes: map<U32, Bytes>, a: Attachment, p: nat) returns (s: U32)
    requires a.allowed <= prefixes.Keys && p < |Outgoing(a)|
    ensures s in a.allowed
    ensures var r := StreamAfter(prefixes[s], Only(Outgoing(a)[..p], s)); r.Some? && !r.value.ended
  {
    PrefixOfConcat(Passed(a), ClosingOf(a), p);
    if p < |Passed(a)| {
      s := OpenWhilePassing(prefixes, a, p);
    } else {
      s := OpenWhileClosing(prefixes, a, p - |Passed(a)|);
    }
  }

  lemma {:induction false} PrefixOfConcat(x: seq<Frame>, y: seq<Frame>, p: nat)
    requires p <= |x + y|
    ensures (x + y)[..p] == if p < |x| then x[..p] else x + y[..p - |x|]
  {
  }
}
