/** Log streams from agents to one reader: chunking, numbering, and reassembly under any interleaving. */
module LogStreams {
  import opened Wrappers
  import opened DataFrames
  import opened LogLines

  datatype Chunk = Chunk(channel: Channel, payload: Bytes)

  /** One stream as its agent reads it: chunks, then perhaps a failure with a message. */
  datatype Source = Source(chunks: seq<Chunk>, failure: Option<Bytes>)

  /** The k-th sequence number; counting saturates. */
  function Number(k: nat): U64 { if k > MAX_U64 then MAX_U64 else k }

  function Next(sequence: U64): U64 { if sequence == MAX_U64 then MAX_U64 else sequence + 1 }

  lemma {:induction false} NextNumber(k: nat)
    ensures Next(Number(k)) == Number(k + 1)
  {
  }

  // ----- the sender -----

  function SplitChunk(chunk: Chunk): seq<Chunk>
    decreases |chunk.payload|
  {
    if chunk.payload == [] then []
    else if |chunk.payload| <= MAX_PAYLOAD then [chunk]
    else [Chunk(chunk.channel, chunk.payload[..MAX_PAYLOAD])] + SplitChunk(Chunk(chunk.channel, chunk.payload[MAX_PAYLOAD..]))
  }

  function SplitAll(chunks: seq<Chunk>): seq<Chunk> {
    if chunks == [] then [] else SplitChunk(chunks[0]) + SplitAll(chunks[1..])
  }

  /** Data frames for the parts, numbered from `from`. */
  function Numbered(stream: U32, parts: seq<Chunk>, from: nat): seq<Frame> {
    if parts == [] then []
    else [Frame(Data, parts[0].channel, 0, stream, Number(from), parts[0].payload)] + Numbered(stream, parts[1..], from + 1)
  }

  /** The closing frames; a message too long to encode ends the sender without them. */
  function Closing(stream: U32, failure: Option<Bytes>, k: nat): seq<Frame> {
    match failure
    case None => [Frame(End, System, 0, stream, Number(k), [])]
    case Some(message) =>
      if |message| > MAX_PAYLOAD then []
      else [Frame(Error, System, 0, stream, Number(k), message), Frame(End, System, 0, stream, Number(k + 1), [])]
  }

  /** Everything the agent sends for a stream, in order. */
  function Sent(stream: U32, source: Source): seq<Frame> {
    var parts := SplitAll(source.chunks);
    Numbered(stream, parts, 0) + Closing(stream, source.failure, |parts|)
  }

  predicate Closes(source: Source) { source.failure.None? || |source.failure.value| <= MAX_PAYLOAD }

  lemma {:induction false} NumberedAt(stream: U32, parts: seq<Chunk>, from: nat, k: nat)
    requires k < |parts|
    ensures |Numbered(stream, parts, from)| == |parts|
    ensures Numbered(stream, parts, from)[k] == Frame(Data, parts[k].channel, 0, stream, Number(from + k), parts[k].payload)
  {
    if k > 0 {
      NumberedAt(stream, parts[1..], from + 1, k - 1);
    } else if |parts| > 1 {
      NumberedAt(stream, parts[1..], from + 1, 0);
    }
  }

  lemma {:induction false} NumberedConcat(stream: U32, a: seq<Chunk>, b: seq<Chunk>, from: nat)
    ensures Numbered(stream, a + b, from) == Numbered(stream, a, from) + Numbered(stream, b, from + |a|)
    ensures |Numbered(stream, a, from)| == |a|
  {
    if a == [] {
      assert a + b == b;
    } else {
      assert (a + b)[1..] == a[1..] + b;
      NumberedConcat(stream, a[1..], b, from + 1);
    }
  }

  lemma {:induction false} SplitFits(chunk: Chunk)
    ensures forall part :: part in SplitChunk(chunk) ==> 0 < |part.payload| <= MAX_PAYLOAD
    decreases |chunk.payload|
  {
    if |chunk.payload| > MAX_PAYLOAD { SplitFits(Chunk(chunk.channel, chunk.payload[MAX_PAYLOAD..])); }
  }

  lemma {:induction false} SplitAllFits(chunks: seq<Chunk>)
    ensures forall part :: part in SplitAll(chunks) ==> |part.payload| <= MAX_PAYLOAD
  {
    if chunks != [] {
      SplitFits(chunks[0]);
      SplitAllFits(chunks[1..]);
    }
  }

  function Payloads(chunks: seq<Chunk>): seq<Bytes> {
    seq(|chunks|, i requires 0 <= i < |chunks| => chunks[i].payload)
  }

  function Content(source: Source): Bytes { Flatten(Payloads(source.chunks)) }

  lemma {:induction false} FlattenConcat(a: seq<Bytes>, b: seq<Bytes>)
    ensures Flatten(a + b) == Flatten(a) + Flatten(b)
  {
    if a == [] {
      assert a + b == b && Flatten(a) + Flatten(b) == Flatten(b);
    } else {
      assert (a + b)[1..] == a[1..] + b && (a + b)[0] == a[0];
      FlattenConcat(a[1..], b);
      Reassociate(a[0], Flatten(a[1..]), Flatten(b));
    }
  }

  lemma {:induction false} PayloadsConcat(a: seq<Chunk>, b: seq<Chunk>)
    ensures Payloads(a + b) == Payloads(a) + Payloads(b)
  {
  }

  lemma {:induction false} SplitKeepsBytes(chunk: Chunk)
    ensures Flatten(Payloads(SplitChunk(chunk))) == chunk.payload
    decreases |chunk.payload|
  {
    var parts := SplitChunk(chunk);
    if |chunk.payload| > MAX_PAYLOAD {
      var rest := Chunk(chunk.channel, chunk.payload[MAX_PAYLOAD..]);
      SplitKeepsBytes(rest);
      assert Payloads(parts)[1..] == Payloads(SplitChunk(rest));
    } else if chunk.payload != [] {
      assert Payloads(parts)[1..] == [] && Flatten([]) == [];
    } else {
      assert Payloads(parts) == [];
    }
  }

  /** Chunking loses and adds no byte. */
  lemma {:induction false} SplitAllKeepsBytes(chunks: seq<Chunk>)
    ensures Flatten(Payloads(SplitAll(chunks))) == Flatten(Payloads(chunks))
  {
    if chunks != [] {
      var first, rest := chunks[0], chunks[1..];
      SplitAllKeepsBytes(rest);
      SplitKeepsBytes(first);
      PayloadsConcat(SplitChunk(first), SplitAll(rest));
      FlattenConcat(Payloads(SplitChunk(first)), Payloads(SplitAll(rest)));
      assert Payloads(chunks)[1..] == Payloads(rest) && Payloads(chunks)[0] == first.payload;
    }
  }

  /** Every frame the sender hands over is encodable. */
  lemma {:induction false} SentFits(stream: U32, source: Source, k: nat)
    requires k < |Sent(stream, source)|
    ensures |Sent(stream, source)[k].payload| <= MAX_PAYLOAD
  {
    var parts := SplitAll(source.chunks);
    SplitAllFits(source.chunks);
    NumberedConcat(stream, parts, [], 0);
    if k < |parts| {
      NumberedAt(stream, parts, 0, k);
      assert parts[k] in parts;
    }
  }

  function EncodeAll(frames: seq<Frame>): seq<Bytes> {
    seq(|frames|, i requires 0 <= i < |frames| => Header(frames[i]) + frames[i].payload)
  }

  /** Splits one chunk and numbers its parts, counting up. */
  method SendChunk(stream: U32, chunk: Chunk, sent: seq<Frame>, sequence: U64) returns (frames: seq<Frame>, next: U64)
    requires sequence == Number(|sent|)
    ensures next == Number(|frames|) && frames == sent + Numbered(stream, SplitChunk(chunk), |sent|)
  {
    frames, next := sent, sequence;
    var rest := chunk.payload;
    while rest != []
      invariant next == Number(|frames|)
      invariant frames + Numbered(stream, SplitChunk(Chunk(chunk.channel, rest)), |frames|)
                == sent + Numbered(stream, SplitChunk(chunk), |sent|)
      decreases |rest|
    {
      var size := if |rest| <= MAX_PAYLOAD then |rest| else MAX_PAYLOAD;
      PartFirst(stream, chunk.channel, rest, size, frames);
      frames := frames + [Frame(Data, chunk.channel, 0, stream, next, rest[..size])];
      NextNumber(|frames| - 1);
      next := Next(next);
      rest := rest[size..];
    }
  }

  lemma {:induction false} PartFirst(stream: U32, channel: Channel, rest: Bytes, size: nat, frames: seq<Frame>)
    requires rest != [] && size == if |rest| <= MAX_PAYLOAD then |rest| else MAX_PAYLOAD
    ensures frames + Numbered(stream, SplitChunk(Chunk(channel, rest)), |frames|)
            == frames + [Frame(Data, channel, 0, stream, Number(|frames|), rest[..size])]
               + Numbered(stream, SplitChunk(Chunk(channel, rest[size..])), |frames| + 1)
  {
    var parts := SplitChunk(Chunk(channel, rest));
    assert parts[0] == Chunk(channel, rest[..size]) && parts[1..] == SplitChunk(Chunk(channel, rest[size..]));
  }

  method SendChunks(stream: U32, chunks: seq<Chunk>) returns (frames: seq<Frame>, sequence: U64)
    ensures frames == Numbered(stream, SplitAll(chunks), 0) && sequence == Number(|frames|)
  {
    frames, sequence := [], 0;
    assert chunks[0..] == chunks;
    for c := 0 to |chunks|
      invariant sequence == Number(|frames|)
      invariant frames + Numbered(stream, SplitAll(chunks[c..]), |frames|) == Numbered(stream, SplitAll(chunks), 0)
    {
      ChunkFirst(stream, chunks, c, frames);
      frames, sequence := SendChunk(stream, chunks[c], frames, sequence);
    }
    assert chunks[|chunks|..] == [];
  }

  lemma {:induction false} ChunkFirst(stream: U32, chunks: seq<Chunk>, c: nat, frames: seq<Frame>)
    requires c < |chunks|
    ensures var sent := frames + Numbered(stream, SplitChunk(chunks[c]), |frames|);
      frames + Numbered(stream, SplitAll(chunks[c..]), |frames|) == sent + Numbered(stream, SplitAll(chunks[c + 1..]), |sent|)
  {
    assert chunks[c..][0] == chunks[c] && chunks[c..][1..] == chunks[c + 1..];
    NumberedConcat(stream, SplitChunk(chunks[c]), SplitAll(chunks[c + 1..]), |frames|);
  }

  /** Sends a whole stream; the messages are the encodings of its frames. */
  method SendStream(stream: U32, source: Source) returns (messages: seq<Bytes>)
    ensures messages == EncodeAll(Sent(stream, source))
  {
    ghost var parts := SplitAll(source.chunks);
    var frames, sequence := SendChunks(stream, source.chunks);
    NumberedConcat(stream, parts, [], 0);
    assert |frames| == |parts|;
    if source.failure.Some? {
      if |source.failure.value| <= MAX_PAYLOAD {
        NextNumber(|parts|);
        frames := frames + [Frame(Error, System, 0, stream, sequence, source.failure.value),
                            Frame(End, System, 0, stream, Next(sequence), [])];
      }
    } else {
      frames := frames + [Frame(End, System, 0, stream, sequence, [])];
    }
    messages := EncodeAll(frames);
  }

  /** The reader decodes each message to the frame that was sent. */
  lemma {:induction false} SentDecodes(stream: U32, source: Source, k: nat)
    requires k < |Sent(stream, source)|
    ensures Decode(EncodeAll(Sent(stream, source))[k]) == Some(Sent(stream, source)[k])
  {
    SentFits(stream, source, k);
    DecodeEncode(Sent(stream, source)[k]);
  }
}
