/** What the legacy client's encoders and decoders promise. */
module LegacyLaws {
  import opened Wire
  import opened Packet
  import opened PacketLaws
  import opened LegacyClient

  /** Plain `char` decodes a block number correctly exactly when it is unsigned or both bytes are below 128. */
  lemma DecodingIsExact(signed: bool, block: uint16)
    ensures DecodeBlock(signed, block / 256, block % 256) == block <==>
            !signed || (block / 256 < 128 && block % 256 < 128)
  {
  }

  /** Every number up to `MaxBlock` is decoded correctly. */
  lemma DecodesUpToTheMax(signed: bool, block: nat)
    requires block <= MaxBlock(signed)
    ensures DecodeBlock(signed, block % 65536 / 256, block % 65536 % 256) == block
  {
    hide DecodeBlock;
    DecodingIsExact(signed, block);
  }

  /** A decoded number is the right one or negative, so it never passes for another block. */
  lemma DecodingNeverConfuses(signed: bool, block: uint16)
    ensures var decoded := DecodeBlock(signed, block / 256, block % 256);
            decoded == block || decoded < 0
  {
  }

  /** The client's two bytes of an `int` are the codec's two bytes of its low 16 bits. */
  lemma BlockBytesAreLow16Bits(block: nat)
    ensures BlockBytes(block) == U16(block % 65536)
  {
    var q, low := block / 65536, block % 65536;
    QuotientIs(block, 256 * q + low / 256, low % 256);
    QuotientIs(256 * q + low / 256, q, low / 256);
  }

  lemma QuotientIs(number: nat, quotient: nat, remainder: nat)
    requires number == 256 * quotient + remainder && remainder < 256
    ensures number / 256 == quotient && number % 256 == remainder
  {
  }

  lemma AckDatagramIsAck(block: nat)
    ensures AckDatagram(block) == EncodeAck(block % 65536)
  {
    hide BlockBytes;
    BlockBytesAreLow16Bits(block);
    assert U16(ACK) == [0, 4];
  }

  /** Parsing what the client sends as a request gives back its opcode and filename. */
  lemma RequestRoundTrip(opcode: byte, filename: seq<byte>)
    requires opcode as int == RRQ || opcode as int == WRQ
    requires 1 <= |filename| <= 255 && 0 !in filename
    ensures ParseRequest(RequestDatagram(opcode, filename)) == Request(opcode, filename)
  {
    var b := RequestDatagram(opcode, filename);
    assert IsOctet(OCTET);
    assert U16(opcode) == [0, opcode];
    assert b == RequestBytes(opcode, filename, OCTET);
    GrammarIsAccepted(b, opcode, filename, OCTET);
  }

  // ---------- the download loop, byte by byte ----------

  /** The two bytes are those of `block`, and the client decodes them as it. */
  predicate Numbers(signed: bool, high: byte, low: byte, block: nat) {
    256 * high + low == block && (!signed || (high < 128 && low < 128))
  }

  lemma DecodedWhen(signed: bool, high: byte, low: byte, block: nat)
    ensures DecodeBlock(signed, high, low) == block <==> Numbers(signed, high, low, block)
  {
  }

  lemma OpcodeByte(signed: bool, b: byte, opcode: nat)
    requires opcode < 128
    ensures CharValue(signed, b) == opcode <==> b == opcode
  {
  }

  /** Exactly what a datagram does to a receiving client: a DATA packet with the expected number is
      appended and acknowledged, and ends the loop if it is short; an ERROR packet ends the loop with
      nothing written; everything else does nothing. */
  lemma DatagramByBytes(signed: bool, c: Client, d: seq<byte>)
    requires c.status == Receiving && |d| >= 4
    ensures var (c', acks) := OnDatagram(signed, c, d);
            if d[1] == 3 && Numbers(signed, d[2], d[3], c.expected) then
              c'.written == c.written + d[4..Min(|d|, 516)] &&
              acks == [[0, 4, c.expected / 256 % 256, c.expected % 256]] &&
              c'.status == (if |d| < 516 then Finished else Receiving) &&
              c'.expected == (if |d| < 516 then c.expected else c.expected + 1)
            else
              acks == [] && c' == c.(status := if d[1] == 5 then ServerError else Receiving)
  {
    hide DecodeBlock, CharValue, Numbers;
    assert AckDatagram(c.expected) == [0, 4, c.expected / 256 % 256, c.expected % 256];
    DecodedWhen(signed, d[2], d[3], c.expected);
    OpcodeByte(signed, d[1], 3);
    OpcodeByte(signed, d[1], 5);
  }

  /** The same for a datagram shorter than its header, read together with what lies behind it in
      the buffer. It never adds to the output. */
  lemma ShortDatagramByBytes(signed: bool, c: Client, buffer: seq<byte>, d: seq<byte>)
    requires |buffer| == BUFFER_SIZE && c.status == Receiving && |d| < 4
    ensures var (c', buffer', acks) := Turn(signed, c, buffer, Some(d));
            var b := d + buffer[|d|..];
            buffer' == b && acks == [] &&
            c' == c.(status :=
                       if b[1] == 5 then ServerError
                       else if b[1] == 3 && Numbers(signed, b[2], b[3], c.expected) then Overrun
                       else Receiving)
  {
    hide DecodeBlock, CharValue, Numbers;
    var b := d + buffer[|d|..];
    DecodedWhen(signed, b[2], b[3], c.expected);
    OpcodeByte(signed, b[1], 3);
    OpcodeByte(signed, b[1], 5);
  }

  /** What a datagram leaves in the buffer: its own first 516 bytes, and what was there behind them. */
  lemma BufferKeepsItsTail(signed: bool, c: Client, buffer: seq<byte>, input: Option<seq<byte>>)
    requires |buffer| == 516
    ensures var buffer' := Turn(signed, c, buffer, input).1;
            |buffer'| == 516 &&
            forall k :: 0 <= k < 516 ==>
              buffer'[k] == if input.Some? && k < |input.value| then input.value[k] else buffer[k]
  {
  }

  /** What makes the loop leave at once, with its output as it is. */
  predicate EndsTheLoop(input: Option<seq<byte>>) {
    match input
    case None => true
    case Some(d) => |d| >= 2 && d[1] == 5
  }

  /** An ERROR packet or a failed receive ends a download: what was written stays, and nothing that
      arrives later is written or acknowledged. */
  lemma ErrorEndsTheDownload(
      signed: bool, c: Client, buffer: seq<byte>, input: Option<seq<byte>>, later: seq<Option<seq<byte>>>)
    requires |buffer| == BUFFER_SIZE && c.status == Receiving && EndsTheLoop(input)
    ensures DownloadInto(signed, c, buffer, [input] + later) ==
            (c.(status := if input.None? then ReceiveError else ServerError), [])
  {
    var (c1, buffer1, acks) := Turn(signed, c, buffer, input);
    if input.Some? {
      assert Overwritten(buffer, input.value)[1] == 5;
      OpcodeByte(signed, 5, 5);
    }
    assert ([input] + later)[1..] == later;
    DownloadEnds(signed, c1, buffer1, later);
    assert acks + [] == [];
  }

  /** Wherever it comes in a download: if the loop is still receiving before it, the result is what
      had been written and acknowledged until then. */
  lemma {:induction false} ErrorEndsAnyDownload(
      signed: bool, c: Client, buffer: seq<byte>, earlier: seq<Option<seq<byte>>>, input: Option<seq<byte>>,
      later: seq<Option<seq<byte>>>)
    requires |buffer| == BUFFER_SIZE && EndsTheLoop(input)
    requires DownloadInto(signed, c, buffer, earlier).0.status == Receiving
    ensures var (c', acks) := DownloadInto(signed, c, buffer, earlier);
            DownloadInto(signed, c, buffer, earlier + [input] + later) ==
            (c'.(status := if input.None? then ReceiveError else ServerError), acks)
    decreases |earlier|
  {
    hide Turn, EndsTheLoop;
    var all := earlier + [input] + later;
    if earlier == [] {
      assert all == [input] + later;
      ErrorEndsTheDownload(signed, c, buffer, input, later);
    } else {
      var (c1, buffer1, acks1) := Turn(signed, c, buffer, earlier[0]);
      assert all[0] == earlier[0] && all[1..] == earlier[1..] + [input] + later;
      ErrorEndsAnyDownload(signed, c1, buffer1, earlier[1..], input, later);
    }
  }
}
