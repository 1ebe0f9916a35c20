/**
 The legacy client of legacy/TFTP_Client.c: the request encoder, the download
 loop, and the blocking upload loop. Its packet buffer is an array of plain
 `char`, so every function that reads one takes `signed`, which says whether
 the platform's `char` is signed.
*/
module LegacyClient {
  import opened Wire
  import opened Packet

  const BUFFER_SIZE: nat := 516

  /** The value of a buffer byte once it is promoted to `int`. */
  function CharValue(signed: bool, b: byte): int {
    if signed && b >= 128 then b as int - 256 else b as int
  }

  /** `(buffer[2] << 8) | buffer[3]`: a negative low byte sets every higher bit. */
  function DecodeBlock(signed: bool, high: byte, low: byte): int {
    if CharValue(signed, low) < 0 then CharValue(signed, low)
    else 256 * CharValue(signed, high) + CharValue(signed, low)
  }

  /** The largest number such that it and every number below it are decoded correctly. */
  function MaxBlock(signed: bool): nat {
    if signed then 127 else 65535
  }

  /** The two bytes `(block >> 8) & 0xFF` and `block & 0xFF` of an `int`. */
  function BlockBytes(block: nat): seq<byte> {
    [block / 256 % 256, block % 256]
  }

  // ---------- the request encoder ----------

  function RequestDatagram(opcode: byte, filename: seq<byte>): seq<byte> {
    [0, opcode] + filename + [0] + OCTET + [0]
  }

  method StrCpy(buffer: array<byte>, at: nat, text: seq<byte>)
    requires at + |text| + 1 <= buffer.Length
    modifies buffer
    ensures buffer[..] == old(buffer[..at]) + text + [0] + old(buffer[at + |text| + 1..])
  {
    forall k | 0 <= k < |text| {
      buffer[at + k] := text[k];
    }
    buffer[at + |text|] := 0;
  }

  method SendRequest(opcode: byte, filename: seq<byte>) returns (datagram: seq<byte>)
    requires 2 + |filename| + 1 + |OCTET| + 1 <= BUFFER_SIZE
    ensures datagram == RequestDatagram(opcode, filename)
  {
    var buffer := new byte[BUFFER_SIZE];
    buffer[0] := 0;
    buffer[1] := opcode;
    StrCpy(buffer, 2, filename);
    var length := 2 + |filename| + 1;
    assert buffer[..length] == [0, opcode] + filename + [0];
    StrCpy(buffer, length, OCTET);
    length := length + |OCTET| + 1;
    datagram := buffer[..length];
  }

  // ---------- the download loop ----------

  /** `Overrun` is a matching block in fewer bytes than its header: the count of bytes
      to write, n - 4, is then negative, and what the loop does is undefined. */
  datatype ClientStatus = Receiving | Finished | ServerError | ReceiveError | Overrun

  datatype Client = Client(status: ClientStatus, expected: nat, written: seq<byte>)

  const STARTED := Client(Receiving, 1, [])

  function AckDatagram(block: nat): seq<byte> {
    [0, 4] + BlockBytes(block)
  }

  /** What one received datagram does, and the acknowledgements it provokes. */
  function OnDatagram(signed: bool, c: Client, datagram: seq<byte>): (Client, seq<seq<byte>>)
    requires |datagram| >= 4
  {
    var n := Min(|datagram|, BUFFER_SIZE);
    if c.status != Receiving then (c, [])
    else if CharValue(signed, datagram[1]) == 5 then (c.(status := ServerError), [])
    else if CharValue(signed, datagram[1]) == 3 && DecodeBlock(signed, datagram[2], datagram[3]) == c.expected then
      var c' := c.(written := c.written + datagram[4..n]);
      (if n < BUFFER_SIZE then c'.(status := Finished) else c'.(expected := c.expected + 1),
       [AckDatagram(c.expected)])
    else (c, [])
  }

  /** What `recvfrom` yields: a datagram, or None for a failure. */
  function OnReceive(signed: bool, c: Client, input: Option<seq<byte>>): (Client, seq<seq<byte>>)
    requires input.Some? ==> |input.value| >= 4
  {
    match input
    case None => (if c.status == Receiving then c.(status := ReceiveError) else c, [])
    case Some(datagram) => OnDatagram(signed, c, datagram)
  }

  function Download(signed: bool, c: Client, inputs: seq<Option<seq<byte>>>): (Client, seq<seq<byte>>)
    requires forall k :: 0 <= k < |inputs| && inputs[k].Some? ==> |inputs[k].value| >= 4
    decreases |inputs|
  {
    if inputs == [] then (c, [])
    else
      var (c1, acks1) := OnReceive(signed, c, inputs[0]);
      var (c2, acks2) := Download(signed, c1, inputs[1..]);
      (c2, acks1 + acks2)
  }

  // The loop never looks at the length of what it received before it reads the header, so a
  // short datagram is read together with what the buffer held before it.

  /** The packet buffer after `recvfrom` has put a datagram at its start. */
  function Overwritten(buffer: seq<byte>, datagram: seq<byte>): (r: seq<byte>)
    requires |buffer| == BUFFER_SIZE
    ensures |r| == BUFFER_SIZE
  {
    var n := Min(|datagram|, BUFFER_SIZE);
    datagram[..n] + buffer[n..]
  }

  /** One turn of the loop, after `n` bytes were received into `buffer`. */
  function OnBuffer(signed: bool, c: Client, buffer: seq<byte>, n: nat): (Client, seq<seq<byte>>)
    requires |buffer| == BUFFER_SIZE && n <= BUFFER_SIZE
  {
    if c.status != Receiving then (c, [])
    else if CharValue(signed, buffer[1]) == 5 then (c.(status := ServerError), [])
    else if CharValue(signed, buffer[1]) == 3 && DecodeBlock(signed, buffer[2], buffer[3]) == c.expected then
      if n < 4 then (c.(status := Overrun), [])
      else
        var c' := c.(written := c.written + buffer[4..n]);
        (if n < BUFFER_SIZE then c'.(status := Finished) else c'.(expected := c.expected + 1),
         [AckDatagram(c.expected)])
    else (c, [])
  }

  /** The client, the buffer, and the acknowledgements sent after one `recvfrom`. */
  function Turn(signed: bool, c: Client, buffer: seq<byte>, input: Option<seq<byte>>)
    : (r: (Client, seq<byte>, seq<seq<byte>>))
    requires |buffer| == BUFFER_SIZE
    ensures |r.1| == BUFFER_SIZE
  {
    match input
    case None => (if c.status == Receiving then c.(status := ReceiveError) else c, buffer, [])
    case Some(datagram) =>
      var buffer' := Overwritten(buffer, datagram);
      var (c', acks) := OnBuffer(signed, c, buffer', Min(|datagram|, BUFFER_SIZE));
      (c', buffer', acks)
  }

  /** The loop on datagrams of any length, `buffer` being what its buffer holds. */
  function DownloadInto(signed: bool, c: Client, buffer: seq<byte>, inputs: seq<Option<seq<byte>>>)
    : (Client, seq<seq<byte>>)
    requires |buffer| == BUFFER_SIZE
    decreases |inputs|
  {
    if inputs == [] then (c, [])
    else
      var (c1, buffer1, acks1) := Turn(signed, c, buffer, inputs[0]);
      var (c2, acks2) := DownloadInto(signed, c1, buffer1, inputs[1..]);
      (c2, acks1 + acks2)
  }

  /** A datagram with a header is read for itself, whatever the buffer held. */
  lemma HeaderHidesTheBuffer(signed: bool, c: Client, buffer: seq<byte>, input: Option<seq<byte>>)
    requires |buffer| == BUFFER_SIZE && (input.Some? ==> |input.value| >= 4)
    ensures var (c', _, acks) := Turn(signed, c, buffer, input);
            (c', acks) == OnReceive(signed, c, input)
  {
    hide CharValue, DecodeBlock, AckDatagram;
    if input.Some? {
      var d := input.value;
      var b := Overwritten(buffer, d);
      assert b[1] == d[1] && b[2] == d[2] && b[3] == d[3];
      assert b[4..Min(|d|, BUFFER_SIZE)] == d[4..Min(|d|, BUFFER_SIZE)];
    }
  }

  /** So while every datagram has a header, the buffer does not matter. */
  lemma {:induction false} HeadersHideTheBuffer(
      signed: bool, c: Client, buffer: seq<byte>, inputs: seq<Option<seq<byte>>>)
    requires |buffer| == BUFFER_SIZE
    requires forall k :: 0 <= k < |inputs| && inputs[k].Some? ==> |inputs[k].value| >= 4
    ensures DownloadInto(signed, c, buffer, inputs) == Download(signed, c, inputs)
    decreases |inputs|
  {
    hide Turn, OnReceive;
    if inputs == [] {
    } else {
      HeaderHidesTheBuffer(signed, c, buffer, inputs[0]);
      var (c1, buffer1, _) := Turn(signed, c, buffer, inputs[0]);
      HeadersHideTheBuffer(signed, c1, buffer1, inputs[1..]);
    }
  }

  /** Once the loop has ended nothing more happens. */
  lemma {:induction false} DownloadEnds(
      signed: bool, c: Client, buffer: seq<byte>, inputs: seq<Option<seq<byte>>>)
    requires |buffer| == BUFFER_SIZE && c.status != Receiving
    ensures DownloadInto(signed, c, buffer, inputs) == (c, [])
    decreases |inputs|
  {
    if inputs == [] {
    } else {
      var (c1, buffer1, acks1) := Turn(signed, c, buffer, inputs[0]);
      DownloadEnds(signed, c1, buffer1, inputs[1..]);
      assert acks1 + [] == [];
    }
  }

  /** One turn of the loop and what is left after it; after its last turn, nothing. */
  lemma DownloadTurn(
      signed: bool, c: Client, buffer: seq<byte>, inputs: seq<Option<seq<byte>>>, i: nat, acks: seq<seq<byte>>)
    requires |buffer| == BUFFER_SIZE && i < |inputs|
    ensures var now := DownloadInto(signed, c, buffer, inputs[i..]);
            var (c1, buffer1, acks1) := Turn(signed, c, buffer, inputs[i]);
            var rest := DownloadInto(signed, c1, buffer1, inputs[i + 1..]);
            now.0 == rest.0 && acks + now.1 == (acks + acks1) + rest.1 &&
            (c1.status != Receiving ==> (now.0, acks + now.1) == (c1, acks + acks1))
  {
    hide Turn;
    assert inputs[i..][1..] == inputs[i + 1..];
    var (c1, buffer1, acks1) := Turn(signed, c, buffer, inputs[i]);
    var rest := DownloadInto(signed, c1, buffer1, inputs[i + 1..]);
    assert acks + (acks1 + rest.1) == (acks + acks1) + rest.1;
    if c1.status != Receiving {
      DownloadEnds(signed, c1, buffer1, inputs[i + 1..]);
      assert (acks + acks1) + [] == acks + acks1;
    }
  }

  /** The loop, on the datagrams that arrive; when they run out it blocks, still receiving.
      `stack` is what the stack held where the loop's buffer lies. */
  method HandleRrq(signed: bool, stack: seq<byte>, inputs: seq<Option<seq<byte>>>)
    returns (c: Client, acks: seq<seq<byte>>)
    requires |stack| == BUFFER_SIZE
    ensures (c, acks) == DownloadInto(signed, STARTED, stack, inputs)
  {
    hide DownloadInto, CharValue, DecodeBlock, AckDatagram;
    var expectedBlock := 1;
    var buffer := new byte[BUFFER_SIZE](k requires 0 <= k < BUFFER_SIZE => stack[k]);
    var written: seq<byte> := [];
    acks := [];
    var i := 0;
    ghost var whole := DownloadInto(signed, STARTED, stack, inputs);
    assert buffer[..] == stack && inputs[0..] == inputs && acks + whole.1 == whole.1;
    while i < |inputs|
      invariant i <= |inputs| && expectedBlock >= 1
      invariant var rest := DownloadInto(signed, Client(Receiving, expectedBlock, written), buffer[..], inputs[i..]);
                whole == (rest.0, acks + rest.1)
    {
      ghost var now := Client(Receiving, expectedBlock, written);
      DownloadTurn(signed, now, buffer[..], inputs, i, acks);
      if inputs[i].None? {
        assert acks + [] == acks;
        return Client(ReceiveError, expectedBlock, written), acks;
      }
      var n := Receive(buffer, inputs[i].value);
      var opcode := CharValue(signed, buffer[1]);
      if opcode == 5 {
        assert acks + [] == acks;
        return Client(ServerError, expectedBlock, written), acks;
      }
      var block := DecodeBlock(signed, buffer[2], buffer[3]);
      if opcode == 3 && block == expectedBlock {
        if n < 4 {
          assert acks + [] == acks;
          return Client(Overrun, expectedBlock, written), acks;
        }
        written := written + buffer[4..n];
        acks := acks + [AckDatagram(block)];
        if n < BUFFER_SIZE {
          return Client(Finished, expectedBlock, written), acks;
        }
        expectedBlock := expectedBlock + 1;
      } else {
        assert acks + [] == acks;
      }
      i := i + 1;
    }
    DownloadBlocks(signed, Client(Receiving, expectedBlock, written), buffer[..], inputs[i..], acks);
    return Client(Receiving, expectedBlock, written), acks;
  }

  lemma DownloadBlocks(
      signed: bool, c: Client, buffer: seq<byte>, inputs: seq<Option<seq<byte>>>, acks: seq<seq<byte>>)
    requires |buffer| == BUFFER_SIZE && inputs == []
    ensures var r := DownloadInto(signed, c, buffer, inputs);
            (r.0, acks + r.1) == (c, acks)
  {
    assert acks + [] == acks;
  }

  /** `recvfrom`, of a datagram that is there. */
  method Receive(buffer: array<byte>, datagram: seq<byte>) returns (n: nat)
    requires buffer.Length == BUFFER_SIZE
    modifies buffer
    ensures n == Min(|datagram|, BUFFER_SIZE)
    ensures buffer[..] == Overwritten(old(buffer[..]), datagram)
  {
    n := Min(|datagram|, BUFFER_SIZE);
    forall k | 0 <= k < n {
      buffer[k] := datagram[k];
    }
  }

  // ---------- the upload loop ----------

  /** The block sent next, of at most 512 bytes, under the unwrapped number `block`. */
  function UploadDatagram(content: seq<byte>, position: nat, block: nat): seq<byte>
    requires position <= |content|
  {
    [0, 3] + BlockBytes(block) + content[position..Min(position + BLOCK_SIZE, |content|)]
  }

  /** The reply lets the loop go on. */
  predicate Continues(signed: bool, reply: Option<seq<byte>>, block: nat) {
    reply.Some? && |reply.value| >= 4 && CharValue(signed, reply.value[1]) == 4 &&
    DecodeBlock(signed, reply.value[2], reply.value[3]) == block
  }

  /** The DATA datagrams the loop sends from `position` on, `block` blocks having been
      sent, given the replies it receives. When they run out it blocks. */
  function Upload(signed: bool, content: seq<byte>, position: nat, block: nat, replies: seq<Option<seq<byte>>>)
    : (sent: seq<seq<byte>>)
    requires position <= |content|
    ensures |sent| >= 1
    decreases |replies|
  {
    var next := Min(position + BLOCK_SIZE, |content|);
    [UploadDatagram(content, position, block + 1)] +
    (if replies == [] || !Continues(signed, replies[0], block + 1) || next - position < BLOCK_SIZE then []
     else Upload(signed, content, next, block + 1, replies[1..]))
  }

  /** The upload as the program runs it, its first reply being the one to the request. */
  function UploadSession(signed: bool, filename: seq<byte>, content: seq<byte>, replies: seq<Option<seq<byte>>>)
    : seq<seq<byte>>
  {
    [RequestDatagram(2, filename)] +
    (if replies == [] || !Continues(signed, replies[0], 0) then []
     else Upload(signed, content, 0, 0, replies[1..]))
  }

  /** Read the next block of the file behind a DATA header, in the packet buffer. */
  method FillBlock(buffer: array<byte>, content: seq<byte>, position: nat, block: nat) returns (bytesRead: nat)
    requires buffer.Length == BUFFER_SIZE && position <= |content|
    modifies buffer
    ensures bytesRead == Min(BLOCK_SIZE, |content| - position)
    ensures buffer[..bytesRead + 4] == UploadDatagram(content, position, block)
  {
    bytesRead := Min(BLOCK_SIZE, |content| - position);
    CopyInto(buffer, 4, content[position..position + bytesRead]);
    assert buffer[4..][..bytesRead] == content[position..position + bytesRead];
    WriteDataHeader(buffer, block);
    assert buffer[..bytesRead + 4] == buffer[..4] + buffer[4..][..bytesRead];
  }

  method WriteDataHeader(buffer: array<byte>, block: nat)
    requires buffer.Length == BUFFER_SIZE
    modifies buffer
    ensures buffer[..4] == [0, 3] + BlockBytes(block) && buffer[4..] == old(buffer[4..])
  {
    buffer[0] := 0;
    buffer[1] := 3;
    buffer[2] := block / 256 % 256;
    buffer[3] := block % 256;
  }

  /** What one turn of the loop sends, and what remains to be sent after it. */
  lemma UploadTurn(
      signed: bool, content: seq<byte>, position: nat, block: nat, replies: seq<Option<seq<byte>>>, i: nat,
      sent: seq<seq<byte>>)
    requires position <= |content| && i <= |replies|
    ensures var next := Min(position + BLOCK_SIZE, |content|);
            var goesOn := i < |replies| && Continues(signed, replies[i], block + 1) && next - position == BLOCK_SIZE;
            sent + Upload(signed, content, position, block, replies[i..]) ==
            sent + [UploadDatagram(content, position, block + 1)] +
            if goesOn then Upload(signed, content, next, block + 1, replies[i + 1..]) else []
  {
    hide UploadDatagram, Continues;
    if i < |replies| {
      assert replies[i..][1..] == replies[i + 1..];
    }
  }

  /** The do-while loop, once ACK 0 has arrived. */
  method UploadBlocks(signed: bool, content: seq<byte>, replies: seq<Option<seq<byte>>>) returns (sent: seq<seq<byte>>)
    ensures sent == Upload(signed, content, 0, 0, replies)
  {
    hide Upload, UploadDatagram, DecodeBlock, CharValue;
    var buffer := new byte[BUFFER_SIZE];
    var block: nat, position: nat, i: nat := 0, 0, 0;
    sent := [];
    var more := true;
    ghost var whole := Upload(signed, content, 0, 0, replies);
    assert replies[0..] == replies && sent + whole == whole;
    while more
      invariant i <= |replies| && position <= |content|
      invariant whole == sent + if more then Upload(signed, content, position, block, replies[i..]) else []
      decreases |replies| - i, more
    {
      UploadTurn(signed, content, position, block, replies, i, sent);
      block := block + 1;
      var bytesRead := FillBlock(buffer, content, position, block);
      sent := sent + [buffer[..bytesRead + 4]];
      position := position + bytesRead;
      if i == |replies| {
        break;
      }
      var reply := replies[i];
      i := i + 1;
      if reply.Some? && |reply.value| >= 4 && CharValue(signed, reply.value[1]) == 4 {
        var ackBlock := DecodeBlock(signed, reply.value[2], reply.value[3]);
        if ackBlock != block {
          break;
        }
      } else {
        break;
      }
      more := bytesRead == BLOCK_SIZE;
    }
    assert sent + [] == sent;
  }

  method HandleWrq(signed: bool, filename: seq<byte>, content: seq<byte>, replies: seq<Option<seq<byte>>>)
    returns (sent: seq<seq<byte>>)
    requires 2 + |filename| + 1 + |OCTET| + 1 <= BUFFER_SIZE
    ensures sent == UploadSession(signed, filename, content, replies)
  {
    var request := SendRequest(2, filename);
    sent := [request];
    if replies == [] {
      return;
    }
    var reply := replies[0];
    if reply.None? || |reply.value| < 4 || CharValue(signed, reply.value[1]) != 4 ||
       DecodeBlock(signed, reply.value[2], reply.value[3]) != 0
    {
      return;
    }
    var blocks := UploadBlocks(signed, content, replies[1..]);
    sent := sent + blocks;
  }
}
