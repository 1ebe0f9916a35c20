/**
 The packet codec of src/tftp/packet/tftp_packet.c: builders that write into a
 caller's buffer, the packet parser, and the request scanner. Each method is
 proved against a function on byte sequences; PacketLaws states what the
 functions promise.
*/
module Packet {
  import opened Wire

  const RRQ: uint16 := 1
  const WRQ: uint16 := 2
  const DATA: uint16 := 3
  const ACK: uint16 := 4
  const ERROR: uint16 := 5

  /** `sizeof(request->filename)`. */
  const REQUEST_FILENAME_SIZE: nat := 256

  /** The bytes of "octet". */
  const OCTET: seq<byte> := [111, 99, 116, 101, 116]

  datatype Packet = Packet(opcode: uint16, block: uint16, payload: seq<byte>)

  datatype ParseResult = Parsed(packet: Packet) | Rejected(status: Status)

  datatype RequestResult = Request(opcode: uint16, filename: seq<byte>) | BadRequest(status: Status)

  function ReadU16(b: seq<byte>): uint16
    requires |b| >= 2
  {
    (b[0] as int) * 256 + b[1] as int
  }

  function U16(value: uint16): seq<byte> {
    [value / 256, value % 256]
  }

  function EncodeData(block: uint16, payload: seq<byte>): seq<byte> {
    U16(DATA) + U16(block) + payload
  }

  function EncodeAck(block: uint16): seq<byte> {
    U16(ACK) + U16(block)
  }

  function EncodeError(code: uint16, message: seq<byte>): seq<byte> {
    U16(ERROR) + U16(code) + message + [0]
  }

  function Parse(b: seq<byte>): (r: ParseResult)
    ensures r.Rejected? ==> r.status != Ok
  {
    if |b| < 2 then Rejected(InvalidPacket)
    else
      var opcode := ReadU16(b);
      if opcode == RRQ || opcode == WRQ then
        if |b| < 6 then Rejected(InvalidPacket)
        else Parsed(Packet(opcode, 0, b[2..]))
      else if opcode == DATA then
        if |b| < HEADER_SIZE || |b| > MAX_PACKET_SIZE then Rejected(InvalidPacket)
        else Parsed(Packet(opcode, ReadU16(b[2..]), b[4..]))
      else if opcode == ACK then
        if |b| != HEADER_SIZE then Rejected(InvalidPacket)
        else Parsed(Packet(opcode, ReadU16(b[2..]), []))
      else if opcode == ERROR then
        if |b| < 5 || b[|b| - 1] != 0 then Rejected(InvalidPacket)
        else Parsed(Packet(opcode, ReadU16(b[2..]), b[4..]))
      else Rejected(InvalidOpcode)
  }

  predicate IsFinalData(payloadLength: nat) {
    payloadLength < BLOCK_SIZE
  }

  function ToLower(c: byte): byte {
    if 65 <= c <= 90 then c + 32 else c
  }

  /** "octet" in any mixture of upper and lower case. */
  predicate IsOctet(mode: seq<byte>) {
    |mode| == |OCTET| && forall k :: 0 <= k < |OCTET| ==> ToLower(mode[k]) == OCTET[k]
  }

  /** The index of the first NUL at or after `from`, or the length. */
  function FirstNul(b: seq<byte>, from: nat): (i: nat)
    requires from <= |b|
    ensures from <= i <= |b|
    ensures i < |b| ==> b[i] == 0
    ensures forall k :: from <= k < i ==> b[k] != 0
    decreases |b| - from
  {
    if from == |b| || b[from] == 0 then from else FirstNul(b, from + 1)
  }

  function ParseRequest(b: seq<byte>): (r: RequestResult)
    ensures r.BadRequest? ==> r.status != Ok
    ensures r.Request? ==> r.opcode == RRQ || r.opcode == WRQ
  {
    match Parse(b)
    case Rejected(status) => BadRequest(status)
    case Parsed(p) =>
      if p.opcode != RRQ && p.opcode != WRQ then BadRequest(InvalidOpcode)
      else
        var i := FirstNul(b, 2);
        if i >= |b| || i == 2 || i - 2 >= REQUEST_FILENAME_SIZE then BadRequest(InvalidPacket)
        else
          var j := FirstNul(b, i + 1);
          if j >= |b| || j == i + 1 then BadRequest(InvalidPacket)
          else if j + 1 != |b| then BadRequest(ProtocolError)
          else if !IsOctet(b[i + 1..j]) then BadRequest(ProtocolError)
          else Request(p.opcode, b[2..i])
  }

  // ---------- builders ----------

  method WriteU16(data: array<byte>, at: nat, value: uint16)
    requires at + 2 <= data.Length
    modifies data
    ensures data[..] == old(data[..])[at := value / 256][at + 1 := value % 256]
  {
    data[at] := value / 256;
    data[at + 1] := value % 256;
  }

  method BuildAck(block: uint16, buffer: array<byte>) returns (status: Status, length: nat)
    modifies buffer
    ensures status == if buffer.Length < 4 then NoResource else Ok
    ensures status == Ok ==>
              length == 4 && buffer[..length] == EncodeAck(block) && buffer[length..] == old(buffer[..])[length..]
    ensures status != Ok ==> length == 0 && buffer[..] == old(buffer[..])
  {
    if buffer.Length < 4 {
      return NoResource, 0;
    }
    WriteU16(buffer, 0, ACK);
    WriteU16(buffer, 2, block);
    return Ok, 4;
  }

  /** `data` is the caller's payload buffer, of which `dataLength` bytes count. */
  method BuildData(block: uint16, data: array<byte>, dataLength: nat, buffer: array<byte>)
    returns (status: Status, length: nat)
    requires dataLength <= data.Length && data != buffer
    modifies buffer
    ensures status ==
            if dataLength > BLOCK_SIZE then InvalidArgument
            else if buffer.Length < 4 + dataLength then NoResource
            else Ok
    ensures status == Ok ==>
              length == 4 + dataLength &&
              buffer[..length] == EncodeData(block, data[..dataLength]) && buffer[length..] == old(buffer[..])[length..]
    ensures status != Ok ==> length == 0 && buffer[..] == old(buffer[..])
  {
    if dataLength > BLOCK_SIZE {
      return InvalidArgument, 0;
    }
    if buffer.Length < 4 + dataLength {
      return NoResource, 0;
    }
    WriteU16(buffer, 0, DATA);
    WriteU16(buffer, 2, block);
    CopyInto(buffer, 4, data[..dataLength]);
    return Ok, 4 + dataLength;
  }

  /** `message` is the C string without its terminating NUL. */
  method BuildError(code: uint16, message: seq<byte>, buffer: array<byte>)
    returns (status: Status, length: nat)
    requires 0 !in message
    modifies buffer
    ensures status == if buffer.Length < 4 + |message| + 1 then NoResource else Ok
    ensures status == Ok ==>
              length == 4 + |message| + 1 &&
              buffer[..length] == EncodeError(code, message) && buffer[length..] == old(buffer[..])[length..]
    ensures status != Ok ==> length == 0 && buffer[..] == old(buffer[..])
  {
    var total := 4 + |message| + 1;
    if buffer.Length < total {
      return NoResource, 0;
    }
    WriteU16(buffer, 0, ERROR);
    WriteU16(buffer, 2, code);
    CopyInto(buffer, 4, message);
    buffer[4 + |message|] := 0;
    return Ok, total;
  }

  /** `memcpy` into the middle of a buffer. */
  method CopyInto(buffer: array<byte>, at: nat, bytes: seq<byte>)
    requires at + |bytes| <= buffer.Length
    modifies buffer
    ensures buffer[..] == old(buffer[..at]) + bytes + old(buffer[at + |bytes|..])
  {
    forall k | 0 <= k < |bytes| {
      buffer[at + k] := bytes[k];
    }
  }

  // ---------- the request scanner ----------

  method IsOctetMode(mode: seq<byte>) returns (ok: bool)
    ensures ok == IsOctet(mode)
  {
    if |mode| != |OCTET| {
      return false;
    }
    for i := 0 to |mode|
      invariant forall k :: 0 <= k < i ==> ToLower(mode[k]) == OCTET[k]
    {
      var c := mode[i];
      if 65 <= c <= 90 {
        c := c + 32;
      }
      if c != OCTET[i] {
        return false;
      }
    }
    return true;
  }

  /** The scan the request parser runs twice: stop at a NUL or at `length`, counting. */
  method ScanToNul(buffer: array<byte>, length: nat, start: nat) returns (i: nat, count: nat)
    requires start <= length <= buffer.Length
    ensures i == FirstNul(buffer[..length], start)
    ensures count == i - start
  {
    i, count := start, 0;
    while i < length
      invariant start <= i <= length
      invariant count == i - start
      invariant FirstNul(buffer[..length], start) == FirstNul(buffer[..length], i)
    {
      if buffer[i] == 0 {
        return;
      }
      count := count + 1;
      i := i + 1;
    }
  }

  method ScanRequest(buffer: array<byte>, length: nat) returns (r: RequestResult)
    requires length <= buffer.Length
    ensures r == ParseRequest(buffer[..length])
  {
    hide IsOctet, FirstNul;
    var received := buffer[..length];
    var parsed := Parse(received);
    if parsed.Rejected? {
      return BadRequest(parsed.status);
    }
    if parsed.packet.opcode != RRQ && parsed.packet.opcode != WRQ {
      return BadRequest(InvalidOpcode);
    }
    var i, filenameLength := ScanToNul(buffer, length, 2);
    if i >= length || filenameLength == 0 || filenameLength >= REQUEST_FILENAME_SIZE {
      return BadRequest(InvalidPacket);
    }
    var modeStart := i + 1;
    var j, modeLength := ScanToNul(buffer, length, modeStart);
    if j >= length || modeLength == 0 {
      return BadRequest(InvalidPacket);
    }
    if j + 1 != length {
      return BadRequest(ProtocolError);
    }
    var octet := IsOctetMode(received[modeStart..modeStart + modeLength]);
    if !octet {
      return BadRequest(ProtocolError);
    }
    return Request(parsed.packet.opcode, received[2..2 + filenameLength]);
  }
}
