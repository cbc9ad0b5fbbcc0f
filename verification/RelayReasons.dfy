/** Why the controller gives up on an agent's connection, and the texts it sends for the streams left open. */
module RelayReasons {
  import opened Wrappers
  import opened Text
  import opened DataFrames

  /** An error text of the WebSocket library. */
  type LibraryText = t: string | |t| <= 1024 witness ""

  /** What is wrong with a message that does not decode; sizes are machine words. */
  datatype Malformed =
    | TooShort
    | TooLong(size: U64)
    | WrongVersion(found: Byte)
    | UnknownKind(found: Byte)
    | UnknownChannel(found: Byte)

  datatype Reason =
    | Disconnected
    | SocketFailed(error: LibraryText)
    | Undecodable(fault: Malformed)
    | Unassigned(stream: U32)
    | Disallowed(kind: Kind)
    | Unexpected(stream: U32, sequence: U64, expected: U64)
    | Offline

  /** The first thing that decoding finds wrong. */
  function Fault(message: Bytes): Malformed
    requires Decode(message).None?
  {
    if |message| < HEADER_BYTES then TooShort
    else if |message| > HEADER_BYTES + MAX_PAYLOAD then TooLong(if |message| > MAX_U64 then MAX_U64 else |message|)
    else if message[0] != VERSION then WrongVersion(message[0])
    else if KindOf(message[1]).None? then UnknownKind(message[1])
    else UnknownChannel(message[2])
  }

  function FaultText(fault: Malformed): string {
    match fault
    case TooShort => "data frame is shorter than its 16-byte header"
    case TooLong(size) => "data frame is " + Decimal(size) + " bytes; maximum is " + Decimal(HEADER_BYTES + MAX_PAYLOAD)
    case WrongVersion(found) => "unsupported data protocol version " + Decimal(found) + "; expected " + Decimal(VERSION)
    case UnknownKind(found) => "unknown data frame type " + Decimal(found)
    case UnknownChannel(found) => "unknown data frame channel " + Decimal(found)
  }

  function KindName(kind: Kind): string {
    match kind
    case Data => "Data"
    case End => "End"
    case Error => "Error"
    case WindowUpdate => "WindowUpdate"
    case Resize => "Resize"
    case Signal => "Signal"
  }

  function ReasonText(reason: Reason): string {
    match reason
    case Disconnected => "node data stream disconnected"
    case SocketFailed(error) => "node data stream failed: " + error
    case Undecodable(fault) => "node sent an invalid data frame: " + FaultText(fault)
    case Unassigned(stream) => "node sent unassigned stream ID " + Decimal(stream)
    case Disallowed(kind) => "node sent disallowed " + KindName(kind) + " frame"
    case Unexpected(stream, sequence, expected) =>
      "stream " + Decimal(stream) + " sequence " + Decimal(sequence) + " arrived; expected " + Decimal(expected)
    case Offline => "node is offline"
  }

  /** The bytes of an ASCII text. */
  function Ascii(text: string): Bytes {
    seq(|text|, i requires 0 <= i < |text| => if text[i] as int < 128 then text[i] as int else '?' as int)
  }

  function ReasonBytes(reason: Reason): Bytes { Ascii(ReasonText(reason)) }

  lemma {:induction false} WordWidth(n: nat)
    requires n <= MAX_U64
    ensures |Decimal(n)| <= 20
  {
    assert PowerOfTen(4) == 10_000;
    assert PowerOfTen(8) == 1_0000_0000;
    assert PowerOfTen(12) == 1_0000_0000_0000;
    assert PowerOfTen(16) == 1_0000_0000_0000_0000;
    assert PowerOfTen(20) == 1_0000_0000_0000_0000_0000;
    DecimalWidth(n, 20);
  }

  lemma {:induction false} FaultFits(fault: Malformed)
    ensures |FaultText(fault)| <= 200
  {
    match fault
    case TooShort =>
    case TooLong(size) =>
      WordWidth(size);
      WordWidth(HEADER_BYTES + MAX_PAYLOAD);
    case WrongVersion(found) =>
      WordWidth(found);
      WordWidth(VERSION);
    case UnknownKind(found) => WordWidth(found);
    case UnknownChannel(found) => WordWidth(found);
  }

  /** Every reason fits a frame, so an error frame can always be encoded. */
  lemma {:induction false} ReasonFits(reason: Reason)
    ensures |ReasonBytes(reason)| <= MAX_PAYLOAD
  {
    match reason
    case Undecodable(fault) => FaultFits(fault);
    case Unassigned(stream) => WordWidth(stream);
    case Unexpected(stream, sequence, expected) =>
      WordWidth(stream);
      WordWidth(sequence);
      WordWidth(expected);
    case _ =>
  }

  /** The fault named is one that the message has. */
  lemma {:induction false} FaultIsTrue(message: Bytes)
    requires Decode(message).None?
    ensures match Fault(message)
      case TooShort => |message| < 16
      case TooLong(size) => |message| > 16 + 65536 && (|message| < 0x1_0000_0000_0000_0000 ==> size == |message|)
      case WrongVersion(found) => 16 <= |message| && message[0] == found && found != 1
      case UnknownKind(found) => 16 <= |message| && message[1] == found && !(1 <= found <= 6)
      case UnknownChannel(found) => 16 <= |message| && message[2] == found && !(1 <= found <= 5)
  {
  }
}
