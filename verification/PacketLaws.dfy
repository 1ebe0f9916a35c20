/**
 What the codec promises: the parser and the builders are inverse to each
 other, and the request scanner accepts exactly the request grammar of
 section 5 of RFC 1350 restricted to "octet" mode.
*/
module PacketLaws {
  import opened Wire
  import opened Packet

  lemma ReadWrittenU16(value: uint16, rest: seq<byte>)
    ensures ReadU16(U16(value) + rest) == value
  {
  }

  lemma WriteReadU16(b: seq<byte>)
    requires |b| >= 2
    ensures U16(ReadU16(b)) == b[..2]
  {
  }

  /** A datagram parses as DATA exactly when it is what the DATA builder writes. */
  lemma DataBijection(b: seq<byte>, block: uint16, payload: seq<byte>)
    ensures Parse(b) == Parsed(Packet(DATA, block, payload)) <==>
            |payload| <= BLOCK_SIZE && b == EncodeData(block, payload)
  {
  }

  lemma AckBijection(b: seq<byte>, block: uint16, payload: seq<byte>)
    ensures Parse(b) == Parsed(Packet(ACK, block, payload)) <==>
            payload == [] && b == EncodeAck(block)
  {
  }

  /** Different numbers have different acknowledgements. */
  lemma AckIsInjective(a: uint16, b: uint16)
    ensures EncodeAck(a) == EncodeAck(b) <==> a == b
  {
    AckBijection(EncodeAck(a), a, []);
    AckBijection(EncodeAck(a), b, []);
  }

  lemma ErrorBijection(b: seq<byte>, code: uint16, message: seq<byte>)
    ensures Parse(b) == Parsed(Packet(ERROR, code, message + [0])) <==>
            b == EncodeError(code, message)
  {
  }

  /** The parser against the formats of section 5 of RFC 1350, byte by byte. */
  lemma ParseIsExact(b: seq<byte>, p: Packet)
    ensures Parse(b) == Parsed(p) <==>
            (match p.opcode
             case 1 => p.block == 0 && |p.payload| >= 4 && b == [0, 1] + p.payload
             case 2 => p.block == 0 && |p.payload| >= 4 && b == [0, 2] + p.payload
             case 3 => |p.payload| <= 512 && b == [0, 3, p.block / 256, p.block % 256] + p.payload
             case 4 => p.payload == [] && b == [0, 4, p.block / 256, p.block % 256]
             case 5 => |p.payload| >= 1 && p.payload[|p.payload| - 1] == 0 &&
                       b == [0, 5, p.block / 256, p.block % 256] + p.payload
             case _ => false)
  {
    if |b| >= 4 {
      WriteReadU16(b[2..]);
    }
  }

  /** Why a datagram does not parse: an opcode that is none of the five, or a bad form. */
  lemma ParseRefusals(b: seq<byte>)
    ensures Parse(b) == Rejected(InvalidOpcode) <==> |b| >= 2 && !(b[0] == 0 && 1 <= b[1] <= 5)
    ensures Parse(b).Rejected? ==> Parse(b).status == InvalidOpcode || Parse(b).status == InvalidPacket
  {
  }

  /** What the builders write, byte by byte. */
  lemma BuiltBytes(block: uint16, payload: seq<byte>)
    ensures EncodeData(block, payload) == [0, 3, block / 256, block % 256] + payload
    ensures EncodeAck(block) == [0, 4, block / 256, block % 256]
    ensures EncodeError(block, payload) == [0, 5, block / 256, block % 256] + payload + [0]
  {
  }

  // ---------- requests ----------

  /** The mode is the word "octet" in letters of either case. */
  lemma OctetIsCaseBlind(mode: seq<byte>)
    ensures IsOctet(mode) <==>
            |mode| == 5 && (mode[0] == 79 || mode[0] == 111) && (mode[1] == 67 || mode[1] == 99) &&
            (mode[2] == 84 || mode[2] == 116) && (mode[3] == 69 || mode[3] == 101) && (mode[4] == 84 || mode[4] == 116)
  {
    if |mode| == 5 && IsOctet(mode) {
      assert ToLower(mode[0]) == 111 && ToLower(mode[1]) == 99 && ToLower(mode[2]) == 116;
      assert ToLower(mode[3]) == 101 && ToLower(mode[4]) == 116;
    }
  }

  /** The datagram grammar of a request: opcode, name, NUL, mode, NUL. */
  function RequestBytes(opcode: uint16, filename: seq<byte>, mode: seq<byte>): seq<byte> {
    U16(opcode) + filename + [0] + mode + [0]
  }

  ghost predicate IsRequest(b: seq<byte>, opcode: uint16, filename: seq<byte>, mode: seq<byte>) {
    && (opcode == RRQ || opcode == WRQ)
    && 1 <= |filename| <= 255 && 0 !in filename
    && IsOctet(mode)
    && b == RequestBytes(opcode, filename, mode)
  }

  lemma OctetHasNoNul(mode: seq<byte>)
    requires IsOctet(mode)
    ensures 0 !in mode && |mode| == 5
  {
  }

  lemma FirstNulIs(b: seq<byte>, from: nat, at: nat)
    requires from <= at < |b| && b[at] == 0
    requires forall k :: from <= k < at ==> b[k] != 0
    ensures FirstNul(b, from) == at
    decreases at - from
  {
  }

  /** A word without NUL, with a NUL behind it, ends at that NUL. */
  lemma FirstNulAfter(b: seq<byte>, from: nat, word: seq<byte>)
    requires from + |word| < |b| && b[from..from + |word|] == word && b[from + |word|] == 0 && 0 !in word
    ensures FirstNul(b, from) == from + |word|
  {
    forall k | from <= k < from + |word| ensures b[k] != 0 {
      assert b[k] == word[k - from];
    }
    FirstNulIs(b, from, from + |word|);
  }

  /** Where the two words of a request and their terminators lie. */
  lemma RequestLayout(opcode: uint16, filename: seq<byte>, mode: seq<byte>)
    ensures var b, i, j := RequestBytes(opcode, filename, mode), 2 + |filename|, 3 + |filename| + |mode|;
            |b| == j + 1 && b[..2] == U16(opcode) && b[2..i] == filename && b[i + 1..j] == mode &&
            b[i] == 0 && b[j] == 0
  {
    var b := RequestBytes(opcode, filename, mode);
    assert b == (U16(opcode) + filename) + [0] + (mode + [0]);
    assert b == U16(opcode) + (filename + [0] + mode + [0]);
  }

  /** Whatever matches the grammar is accepted, with the opcode and name it was built from. */
  lemma GrammarIsAccepted(b: seq<byte>, opcode: uint16, filename: seq<byte>, mode: seq<byte>)
    requires IsRequest(b, opcode, filename, mode)
    ensures ParseRequest(b) == Request(opcode, filename)
  {
    hide FirstNul, IsOctet, RequestBytes;
    OctetHasNoNul(mode);
    var i := 2 + |filename|;
    var j := i + 1 + |mode|;
    RequestLayout(opcode, filename, mode);
    ReadWrittenU16(opcode, b[2..]);
    assert b == U16(opcode) + b[2..];
    FirstNulAfter(b, 2, filename);
    FirstNulAfter(b, i + 1, mode);
  }

  /** Whatever is accepted matches the grammar. */
  lemma AcceptedIsGrammar(b: seq<byte>, opcode: uint16, filename: seq<byte>) returns (mode: seq<byte>)
    requires ParseRequest(b) == Request(opcode, filename)
    ensures IsRequest(b, opcode, filename, mode)
  {
    var i := FirstNul(b, 2);
    var j := FirstNul(b, i + 1);
    mode := b[i + 1..j];
    WriteReadU16(b);
    assert b == b[..2] + b[2..i] + [b[i]] + b[i + 1..j] + [b[j]];
  }

  lemma RequestParserIsExact(b: seq<byte>, opcode: uint16, filename: seq<byte>)
    ensures ParseRequest(b) == Request(opcode, filename) <==>
            exists mode :: IsRequest(b, opcode, filename, mode)
  {
    if ParseRequest(b) == Request(opcode, filename) {
      var mode := AcceptedIsGrammar(b, opcode, filename);
    }
    if exists mode :: IsRequest(b, opcode, filename, mode) {
      var mode :| IsRequest(b, opcode, filename, mode);
      GrammarIsAccepted(b, opcode, filename, mode);
    }
  }

  // ---------- why a request is refused ----------

  /** Two terminated words after the opcode, as a request has, and then `tail`. */
  ghost predicate HasWords(b: seq<byte>, opcode: uint16, filename: seq<byte>, mode: seq<byte>, tail: seq<byte>) {
    && (opcode == 1 || opcode == 2)
    && 1 <= |filename| <= 255 && 0 !in filename && mode != [] && 0 !in mode && |b| >= 6
    && b == [0, opcode] + filename + [0] + mode + [0] + tail
  }

  /** A request is a protocol error if its two words are there, but more follows or the mode is not octet. */
  ghost predicate WrongMode(b: seq<byte>) {
    exists opcode, filename, mode, tail :: HasWords(b, opcode, filename, mode, tail) && (tail != [] || !IsOctet(mode))
  }

  /** A word without NUL between `before` and a NUL. */
  lemma WordAt(b: seq<byte>, before: seq<byte>, word: seq<byte>, after: seq<byte>)
    requires b == before + word + [0] + after && 0 !in word
    ensures FirstNul(b, |before|) == |before| + |word| && b[|before|..|before| + |word|] == word
    ensures b[..|before|] == before
  {
    hide FirstNul;
    FirstNulAfter(b, |before|, word);
  }

  lemma Regrouped(x: seq<byte>, y: seq<byte>, z: seq<byte>, w: seq<byte>)
    ensures x + y + z + w == x + (y + z + w)
  {
  }

  lemma WordsAreFound(b: seq<byte>, opcode: uint16, filename: seq<byte>, mode: seq<byte>, tail: seq<byte>)
    requires HasWords(b, opcode, filename, mode, tail)
    ensures |b| >= 6 && b[..2] == [0, opcode]
    ensures FirstNul(b, 2) == 2 + |filename| && FirstNul(b, 3 + |filename|) == 3 + |filename| + |mode|
    ensures b[2..2 + |filename|] == filename && b[3 + |filename|..3 + |filename| + |mode|] == mode
    ensures |b| == 4 + |filename| + |mode| + |tail|
  {
    hide FirstNul;
    var head: seq<byte> := [0, opcode];
    Regrouped(head + filename + [0], mode, [0], tail);
    WordAt(b, head, filename, mode + [0] + tail);
    WordAt(b, head + filename + [0], mode, tail);
  }

  lemma OpensARequest(b: seq<byte>, opcode: uint16)
    requires |b| >= 6 && b[..2] == [0, opcode] && (opcode == 1 || opcode == 2)
    ensures Parse(b) == Parsed(Packet(opcode, 0, b[2..]))
  {
    assert b[0] == 0 && b[1] == opcode;
  }

  /** The statuses of a refused request: a protocol error as above, INVALID_OPCODE for an unknown
      opcode and for a well-formed DATA, ACK or ERROR packet, INVALID_PACKET for everything else. */
  lemma RequestRefusals(b: seq<byte>)
    ensures ParseRequest(b) == BadRequest(ProtocolError) <==> WrongMode(b)
    ensures ParseRequest(b) == BadRequest(InvalidOpcode) <==>
            Parse(b) == Rejected(InvalidOpcode) || (Parse(b).Parsed? && Parse(b).packet.opcode >= 3)
    ensures ParseRequest(b).BadRequest? ==>
              ParseRequest(b).status in {ProtocolError, InvalidOpcode, InvalidPacket}
  {
    hide Parse, ParseRequest, WrongMode;
    OpcodeRefusals(b);
    if WrongMode(b) {
      WrongModeIsRefused(b);
    }
    if ParseRequest(b) == BadRequest(ProtocolError) {
      WordsOfARefusal(b);
    }
  }

  lemma OpcodeRefusals(b: seq<byte>)
    ensures ParseRequest(b) == BadRequest(InvalidOpcode) <==>
            Parse(b) == Rejected(InvalidOpcode) || (Parse(b).Parsed? && Parse(b).packet.opcode >= 3)
    ensures ParseRequest(b).BadRequest? ==>
              ParseRequest(b).status in {ProtocolError, InvalidOpcode, InvalidPacket}
  {
    ParseRefusals(b);
    hide FirstNul, IsOctet, Parse;
    if Parse(b).Parsed? {
      ParseIsExact(b, Parse(b).packet);
    }
  }

  lemma WrongModeIsRefused(b: seq<byte>)
    requires WrongMode(b)
    ensures ParseRequest(b) == BadRequest(ProtocolError)
  {
    hide FirstNul, IsOctet, HasWords, Parse;
    var opcode, filename, mode, tail :| HasWords(b, opcode, filename, mode, tail) && (tail != [] || !IsOctet(mode));
    WordsAreFound(b, opcode, filename, mode, tail);
    WordsHaveBounds(b, opcode, filename, mode, tail);
    OpensARequest(b, opcode);
  }

  lemma WordsHaveBounds(b: seq<byte>, opcode: uint16, filename: seq<byte>, mode: seq<byte>, tail: seq<byte>)
    requires HasWords(b, opcode, filename, mode, tail)
    ensures opcode == 1 || opcode == 2
    ensures 1 <= |filename| <= 255 && mode != []
  {
  }

  lemma CutAtTwo(b: seq<byte>, i: nat, j: nat)
    requires 2 <= i < j < |b|
    ensures b == b[..2] + b[2..i] + [b[i]] + b[i + 1..j] + [b[j]] + b[j + 1..]
  {
    assert b == b[..j] + [b[j]] + b[j + 1..];
    assert b[..j] == b[..2] + b[2..i] + [b[i]] + b[i + 1..j];
  }

  lemma OpensWith(b: seq<byte>)
    requires Parse(b).Parsed? && (Parse(b).packet.opcode == 1 || Parse(b).packet.opcode == 2)
    ensures |b| >= 6 && b[..2] == [0, Parse(b).packet.opcode]
  {
    ParseIsExact(b, Parse(b).packet);
  }

  lemma WordsOfARefusal(b: seq<byte>)
    requires ParseRequest(b) == BadRequest(ProtocolError)
    ensures WrongMode(b)
  {
    hide FirstNul, IsOctet, Parse;
    ParseRefusals(b);
    OpensWith(b);
    var i := FirstNul(b, 2);
    var j := FirstNul(b, i + 1);
    var filename, mode := b[2..i], b[i + 1..j];
    assert 0 !in filename && 0 !in mode;
    CutAtTwo(b, i, j);
    assert HasWords(b, Parse(b).packet.opcode, filename, mode, b[j + 1..]);
  }
}
