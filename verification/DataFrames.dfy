/** The binary frames of the data plane. */
module DataFrames {
  import opened Wrappers

  type Byte = x: int | 0 <= x < 256
  type Bytes = seq<Byte>
  type U32 = x: int | 0 <= x < 0x1_0000_0000
  type U64 = x: int | 0 <= x < 0x1_0000_0000_0000_0000

  const VERSION: Byte := 1
  const HEADER_BYTES: nat := 16
  const MAX_PAYLOAD: nat := 64 * 1024
  const MAX_U64: U64 := 0xffff_ffff_ffff_ffff

  datatype Kind = Data | End | Error | WindowUpdate | Resize | Signal

  datatype Channel = Stdout | Stderr | Stdin | Console | System

  datatype Frame = Frame(kind: Kind, channel: Channel, flags: Byte, stream: U32, sequence: U64, payload: Bytes)

  function KindByte(kind: Kind): Byte {
    match kind
    case Data => 1
    case End => 2
    case Error => 3
    case WindowUpdate => 4
    case Resize => 5
    case Signal => 6
  }

  function KindOf(b: Byte): Option<Kind> {
    match b
    case 1 => Some(Data)
    case 2 => Some(End)
    case 3 => Some(Error)
    case 4 => Some(WindowUpdate)
    case 5 => Some(Resize)
    case 6 => Some(Signal)
    case _ => None
  }

  function ChannelByte(channel: Channel): Byte {
    match channel
    case Stdout => 1
    case Stderr => 2
    case Stdin => 3
    case Console => 4
    case System => 5
  }

  function ChannelOf(b: Byte): Option<Channel> {
    match b
    case 1 => Some(Stdout)
    case 2 => Some(Stderr)
    case 3 => Some(Stdin)
    case 4 => Some(Console)
    case 5 => Some(System)
    case _ => None
  }

  // ----- big-endian numbers -----

  function Power(k: nat): nat { if k == 0 then 1 else 256 * Power(k - 1) }

  function ToBytes(n: nat, k: nat): Bytes {
    if k == 0 then [] else ToBytes(n / 256, k - 1) + [n % 256]
  }

  function FromBytes(bytes: Bytes): nat {
    if bytes == [] then 0 else 256 * FromBytes(bytes[..|bytes| - 1]) + bytes[|bytes| - 1]
  }

  lemma {:induction false} NumberRoundTrip(n: nat, k: nat)
    requires n < Power(k)
    ensures |ToBytes(n, k)| == k && FromBytes(ToBytes(n, k)) == n
  {
    if k > 0 {
      NumberRoundTrip(n / 256, k - 1);
      assert ToBytes(n, k)[..k - 1] == ToBytes(n / 256, k - 1);
    }
  }

  lemma {:induction false} BytesRoundTrip(bytes: Bytes)
    ensures FromBytes(bytes) < Power(|bytes|) && ToBytes(FromBytes(bytes), |bytes|) == bytes
  {
    if bytes != [] {
      var front, last := bytes[..|bytes| - 1], bytes[|bytes| - 1];
      BytesRoundTrip(front);
      assert FromBytes(bytes) / 256 == FromBytes(front) && FromBytes(bytes) % 256 == last;
      assert bytes == front + [last];
    }
  }

  lemma {:induction false} Widths()
    ensures Power(4) == 0x1_0000_0000 && Power(8) == 0x1_0000_0000_0000_0000
  {
    assert Power(2) == 0x1_0000;
    assert Power(4) == 0x1_0000_0000;
    assert Power(6) == 0x1_0000_0000_0000;
  }

  // ----- the codec -----

  function Header(f: Frame): Bytes {
    [VERSION, KindByte(f.kind), ChannelByte(f.channel), f.flags] + ToBytes(f.stream, 4) + ToBytes(f.sequence, 8)
  }

  function Encode(f: Frame): Option<Bytes> {
    if |f.payload| > MAX_PAYLOAD then None else Some(Header(f) + f.payload)
  }

  function Decode(bytes: Bytes): Option<Frame> {
    if |bytes| < HEADER_BYTES || |bytes| > HEADER_BYTES + MAX_PAYLOAD || bytes[0] != VERSION then None
    else
      match (KindOf(bytes[1]), ChannelOf(bytes[2]))
      case (Some(kind), Some(channel)) =>
        Widths();
        BytesRoundTrip(bytes[4..8]);
        BytesRoundTrip(bytes[8..16]);
        Some(Frame(kind, channel, bytes[3], FromBytes(bytes[4..8]), FromBytes(bytes[8..16]), bytes[16..]))
      case _ => None
  }

  lemma {:induction false} HeaderLayout(f: Frame)
    ensures |Header(f)| == HEADER_BYTES
    ensures Header(f)[4..8] == ToBytes(f.stream, 4) && Header(f)[8..16] == ToBytes(f.sequence, 8)
    ensures FromBytes(ToBytes(f.stream, 4)) == f.stream && FromBytes(ToBytes(f.sequence, 8)) == f.sequence
  {
    Widths();
    NumberRoundTrip(f.stream, 4);
    NumberRoundTrip(f.sequence, 8);
  }

  function HighFirst(a: int, b: int, c: int, d: int): int { a * 0x100_0000 + b * 0x1_0000 + c * 0x100 + d }

  /** The header byte by byte: version, kind, channel, flags, then stream and sequence with the high byte first. */
  lemma {:induction false} HeaderBytes(f: Frame)
    ensures var h := Header(f);
      && |h| == 16 && h[0] == 1 && h[3] == f.flags
      && h[1] == (match f.kind
                  case Data => 1 case End => 2 case Error => 3 case WindowUpdate => 4 case Resize => 5 case Signal => 6)
      && h[2] == (match f.channel case Stdout => 1 case Stderr => 2 case Stdin => 3 case Console => 4 case System => 5)
      && f.stream == HighFirst(h[4], h[5], h[6], h[7])
      && f.sequence == HighFirst(h[8], h[9], h[10], h[11]) * 0x1_0000_0000 + HighFirst(h[12], h[13], h[14], h[15])
  {
    HeaderLayout(f);
    var h := Header(f);
    assert h[4..8] == [h[4], h[5], h[6], h[7]];
    assert h[8..16] == [h[8], h[9], h[10], h[11]] + [h[12], h[13], h[14], h[15]];
    FourBytes([], h[4], h[5], h[6], h[7]);
    FourBytes([], h[8], h[9], h[10], h[11]);
    FourBytes([h[8], h[9], h[10], h[11]], h[12], h[13], h[14], h[15]);
    assert [] + [h[4], h[5], h[6], h[7]] == [h[4], h[5], h[6], h[7]];
    assert [] + [h[8], h[9], h[10], h[11]] == [h[8], h[9], h[10], h[11]];
  }

  lemma {:induction false} FourBytes(front: Bytes, a: Byte, b: Byte, c: Byte, d: Byte)
    ensures FromBytes(front + [a, b, c, d]) == FromBytes(front) * 0x1_0000_0000 + HighFirst(a, b, c, d)
  {
    OneByte(front, a);
    OneByte(front + [a], b);
    OneByte(front + [a] + [b], c);
    OneByte(front + [a] + [b] + [c], d);
    assert front + [a] + [b] + [c] + [d] == front + [a, b, c, d];
  }

  lemma {:induction false} OneByte(front: Bytes, a: Byte)
    ensures FromBytes(front + [a]) == 256 * FromBytes(front) + a
  {
    assert (front + [a])[..|front|] == front;
  }

  /** Every encodable frame decodes to itself. */
  lemma {:induction false} DecodeEncode(f: Frame)
    requires |f.payload| <= MAX_PAYLOAD
    ensures Decode(Encode(f).value) == Some(f)
  {
    HeaderLayout(f);
    var bytes := Header(f) + f.payload;
    assert bytes[4..8] == Header(f)[4..8] && bytes[8..16] == Header(f)[8..16] && bytes[16..] == f.payload;
  }

  lemma {:induction false} KindInverse(b: Byte)
    ensures KindOf(b).Some? ==> KindByte(KindOf(b).value) == b
  {
  }

  lemma {:induction false} ChannelInverse(b: Byte)
    ensures ChannelOf(b).Some? ==> ChannelByte(ChannelOf(b).value) == b
  {
  }

  /** Every accepted message is the encoding of the frame it decodes to. */
  lemma {:induction false} EncodeDecode(bytes: Bytes)
    requires Decode(bytes).Some?
    ensures Encode(Decode(bytes).value) == Some(bytes)
  {
    var f := Decode(bytes).value;
    KindInverse(bytes[1]);
    ChannelInverse(bytes[2]);
    BytesRoundTrip(bytes[4..8]);
    BytesRoundTrip(bytes[8..16]);
    assert Header(f) == bytes[..16] by {
      assert bytes[..16] == [bytes[0], bytes[1], bytes[2], bytes[3]] + bytes[4..8] + bytes[8..16];
    }
    assert bytes == bytes[..16] + bytes[16..];
  }
}
