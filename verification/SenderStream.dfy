/**
 The sender against an arbitrary peer. A logical block index n, which the 16-bit
 counter holds only modulo 65536, ties the file position, the packet buffer, the
 final-block flag and everything sent so far to the file.
*/
module SenderStream {
  import opened Wire
  import opened Packet
  import opened PacketLaws
  import opened Transports
  import opened Files
  import opened Transfers

  // ---------- a file cut into blocks ----------

  /** The index of the block that ends the transfer: the first short one. */
  function LastBlock(content: seq<byte>): nat {
    |content| / BLOCK_SIZE + 1
  }

  /** How many bytes the first `n` blocks carry. */
  function Offset(content: seq<byte>, n: nat): (o: nat)
    ensures o <= |content|
  {
    Min(BLOCK_SIZE * n, |content|)
  }

  function Chunk(content: seq<byte>, n: nat): (c: seq<byte>)
    requires n >= 1
    ensures |c| <= BLOCK_SIZE
  {
    content[Offset(content, n - 1)..Offset(content, n)]
  }

  function DataDatagram(content: seq<byte>, n: nat): seq<byte>
    requires n >= 1
  {
    EncodeData(n % 65536, Chunk(content, n))
  }

  /** The first `n` DATA datagrams of the transfer. */
  function DataDatagrams(content: seq<byte>, n: nat): (r: seq<seq<byte>>)
    ensures |r| == n
  {
    seq(n, k requires 0 <= k < n => DataDatagram(content, k + 1))
  }

  /** The payloads of a list of DATA datagrams, end to end. */
  function Payloads(datagrams: seq<seq<byte>>): seq<byte> {
    if datagrams == [] then []
    else
      var last := datagrams[|datagrams| - 1];
      Payloads(datagrams[..|datagrams| - 1]) + (if |last| < HEADER_SIZE then [] else last[HEADER_SIZE..])
  }

  /** Exactly the last block is short. */
  lemma OnlyTheLastBlockIsShort(content: seq<byte>, n: nat)
    requires 1 <= n <= LastBlock(content)
    ensures |Chunk(content, n)| < BLOCK_SIZE <==> n == LastBlock(content)
    ensures n == LastBlock(content) ==> Offset(content, n) == |content|
    ensures n < LastBlock(content) ==> Offset(content, n) == BLOCK_SIZE * n
  {
  }

  lemma NextChunkExtendsThePrefix(content: seq<byte>, n: nat)
    requires n >= 1
    ensures content[..Offset(content, n)] == content[..Offset(content, n - 1)] + Chunk(content, n)
  {
  }

  lemma {:induction false} PayloadsAreThePrefix(content: seq<byte>, n: nat)
    ensures Payloads(DataDatagrams(content, n)) == content[..Offset(content, n)]
  {
    if n == 0 {
    } else {
      PayloadsAreThePrefix(content, n - 1);
      var ds := DataDatagrams(content, n);
      assert ds[..n - 1] == DataDatagrams(content, n - 1);
      assert ds[n - 1][HEADER_SIZE..] == Chunk(content, n);
      NextChunkExtendsThePrefix(content, n);
    }
  }

  // ---------- one transfer on its own ----------

  datatype Session = Active(transfer: Transfer, file: File) | Released(completed: bool)

  ghost predicate SessionValid(s: Session) {
    s.Active? ==> s.file.Valid()
  }

  /** One run of the transfer's handler, and the datagrams it sends. */
  function Notified(s: Session, v: Transport, notice: Notice): (r: (Session, seq<seq<byte>>))
    requires SessionValid(s)
    ensures SessionValid(r.0)
  {
    if s.Released? then (s, [])
    else
      var h := OnReady(s.transfer, s.file, v, notice);
      (if h.release then Released(h.transfer.state == Complete) else Active(h.transfer, h.file), h.sent)
  }

  /** A list of handler runs: the final session and everything sent. */
  function NotifiedAll(s: Session, v: Transport, notices: seq<Notice>): (r: (Session, seq<seq<byte>>))
    requires SessionValid(s)
    ensures SessionValid(r.0)
    decreases |notices|
  {
    if notices == [] then (s, [])
    else
      var (s1, sent) := Notified(s, v, notices[0]);
      var (s2, more) := NotifiedAll(s1, v, notices[1..]);
      (s2, sent + more)
  }

  /** After the step that sends block `n` of `content`, while its ACK is awaited. */
  ghost predicate InStream(t: Transfer, f: File, content: seq<byte>, n: nat) {
    && t.initialized && t.state == WaitAck
    && 1 <= n <= LastBlock(content)
    && f.open && f.fp == Some(Stream(content, Offset(content, n)))
    && t.block == n % 65536 && t.expectedBlock == n % 65536
    && t.packet == DataDatagram(content, n)
    && (t.finalData <==> n == LastBlock(content))
  }

  ghost predicate SocketReady(v: Transport) {
    v.initialized && v.open
  }

  /** Sending from position n - 1 puts the sender at block n, and sends exactly that block. */
  lemma SendNextDataSendsChunk(t: Transfer, f: File, v: Transport, io: NextIo, content: seq<byte>, n: nat)
    requires SocketReady(v) && t.initialized
    requires 1 <= n <= LastBlock(content)
    requires t.block == (n - 1) % 65536
    requires f.open && f.fp == Some(Stream(content, Offset(content, n - 1)))
    ensures var r := SendNextData(t, f, v, io);
            if io.read.ReadOk? && io.send.SendOk? then
              r.status == Ok && r.sent == [DataDatagram(content, n)] && InStream(r.transfer, r.file, content, n)
            else r.status != Ok && r.sent == []
  {
    OnlyTheLastBlockIsShort(content, n);
    if io.read.ReadOk? {
      var (f', status, bytes) := FileRead(f, BLOCK_SIZE, io.read);
      assert bytes == Chunk(content, n);
      assert (t.block + 1) % 65536 == n % 65536;
    }
  }

  /** The notice brings a datagram to the handler, which reads it off the socket. */
  predicate Delivers(v: Transport, notice: Notice) {
    notice.fd == FdOf(v) && !notice.events.error && notice.events.read && notice.recv.RecvOk?
  }

  function Delivered(notice: Notice): seq<byte>
    requires notice.recv.RecvOk?
  {
    notice.recv.datagram[..Min(|notice.recv.datagram|, MAX_PACKET_SIZE)]
  }

  predicate FromPeer(t: Transfer, v: Transport, notice: Notice) {
    Delivers(v, notice) && notice.recv.source == t.peer
  }

  /** The datagram is the acknowledgement of block `n`. */
  predicate Acknowledges(notice: Notice, n: nat) {
    notice.recv.RecvOk? && Delivered(notice) == EncodeAck(n % 65536)
  }

  /** Anything but the ACK of the outstanding block is refused. */
  lemma OtherPacketIsRefused(t: Transfer, f: File, v: Transport, data: seq<byte>, io: NextIo)
    requires f.Valid() && data != EncodeAck(t.expectedBlock)
    ensures var r := OnPacket(t, f, v, data, io);
            r.status != Ok && r.sent == []
  {
  }

  /** Why a datagram is refused while an ACK is awaited: it does not parse, it is no ACK, or it is
      the ACK of another block. */
  lemma PacketRefusals(t: Transfer, f: File, v: Transport, data: seq<byte>, io: NextIo)
    requires f.Valid() && t.initialized && t.state == WaitAck && data != EncodeAck(t.expectedBlock)
    ensures OnPacket(t, f, v, data, io).status ==
            if |data| < 4 then InvalidPacket
            else if Parse(data).Rejected? then Parse(data).status
            else if data[0] == 0 && data[1] == 4 then InvalidBlock
            else ProtocolError
  {
    hide Parse, EncodeAck;
    if Parse(data).Parsed? {
      ParseIsExact(data, Parse(data).packet);
      BuiltBytes(t.expectedBlock, []);
    }
  }

  /** What the RX_PACKET event does while block `n` is outstanding. */
  lemma PacketStep(t: Transfer, f: File, v: Transport, data: seq<byte>, io: NextIo, content: seq<byte>, n: nat)
    requires InStream(t, f, content, n) && SocketReady(v)
    ensures f.Valid()
    ensures var r := OnPacket(t, f, v, data, io);
            if data == EncodeAck(n % 65536) && n == LastBlock(content) then
              r == Stepped(t.(state := Complete), f, Ok, [])
            else if data == EncodeAck(n % 65536) && io.read.ReadOk? && io.send.SendOk? then
              r.status == Ok && r.sent == [DataDatagram(content, n + 1)] &&
              InStream(r.transfer, r.file, content, n + 1)
            else r.status != Ok && r.sent == []
  {
    hide SendNextData, DataDatagram, EncodeAck, EncodeData;
    if data != EncodeAck(n % 65536) {
      hide OnPacket;
      OtherPacketIsRefused(t, f, v, data, io);
    } else {
      AckBijection(data, n % 65536, []);
      if n < LastBlock(content) {
        SendNextDataSendsChunk(t, f, v, io, content, n + 1);
      }
    }
  }

  /** What a datagram from the peer does while block `n` is outstanding. It moves the
      sender to block n + 1 exactly when it is the ACK of block n, n is not the last
      block and the next block could be read and sent; it completes the transfer
      exactly when it is the ACK of the last block; anything else, a duplicate ACK
      included, releases the transfer as failed. */
  lemma PeerDatagramStep(t: Transfer, f: File, v: Transport, notice: Notice, content: seq<byte>, n: nat)
    requires InStream(t, f, content, n) && SocketReady(v) && FromPeer(t, v, notice)
    ensures var (s, sent) := Notified(Active(t, f), v, notice);
            if Acknowledges(notice, n) && n == LastBlock(content) then
              s == Released(true) && sent == []
            else if Acknowledges(notice, n) && notice.next.read.ReadOk? && notice.next.send.SendOk? then
              s.Active? && InStream(s.transfer, s.file, content, n + 1) && s.transfer.peer == t.peer &&
              sent == [DataDatagram(content, n + 1)]
            else s == Released(false) && sent == []
  {
    hide OnPacket, DataDatagram, EncodeAck, EncodeData, LastBlock, Offset;
    assert Received(v, MAX_PACKET_SIZE, notice.recv) == (Ok, Delivered(notice));
    PacketStep(t, f, v, Delivered(notice), notice.next, content, n);
  }

  /** The ACK of the block before, arriving again, is not ignored: it ends the transfer. */
  lemma DuplicateAckIsFatal(t: Transfer, f: File, v: Transport, notice: Notice, content: seq<byte>, n: nat)
    requires InStream(t, f, content, n) && SocketReady(v) && FromPeer(t, v, notice)
    requires n >= 2 && Acknowledges(notice, n - 1)
    ensures Notified(Active(t, f), v, notice) == (Released(false), [])
  {
    hide Notified;
    var d := Delivered(notice);
    AckBijection(d, (n - 1) % 65536, []);
    AckBijection(d, n % 65536, []);
    assert (n - 1) % 65536 != n % 65536;
    PeerDatagramStep(t, f, v, notice, content, n);
  }

  /** A notice that brings nothing from the peer leaves the block outstanding, or marks
      the transfer failed; nothing is sent. */
  lemma OtherNoticeStep(t: Transfer, f: File, v: Transport, notice: Notice)
    requires f.Valid() && SocketReady(v) && !FromPeer(t, v, notice)
    ensures var (s, sent) := Notified(Active(t, f), v, notice);
            sent == [] && (s == Active(t, f) || s == Active(t.(state := Failed), f))
  {
  }

  /** A failed transfer stays as it is until a datagram from its peer releases it. */
  lemma FailedStep(t: Transfer, f: File, v: Transport, notice: Notice)
    requires f.Valid() && SocketReady(v) && t.state == Failed
    ensures Notified(Active(t, f), v, notice) ==
            (if FromPeer(t, v, notice) then Released(false) else Active(t, f), [])
  {
    hide OnPacket;
    if FromPeer(t, v, notice) {
      FailedRefuses(t, f, v, Delivered(notice), notice.next);
    }
  }

  lemma FailedRefuses(t: Transfer, f: File, v: Transport, data: seq<byte>, io: NextIo)
    requires f.Valid() && t.state == Failed
    ensures OnPacket(t, f, v, data, io).status != Ok && OnPacket(t, f, v, data, io).sent == []
  {
  }

  /** A datagram from the peer of a failed transfer, or one that is not the ACK its state machine
      can go on from. */
  predicate Ends(t: Transfer, v: Transport, notice: Notice) {
    FromPeer(t, v, notice) &&
    (t.state == Failed || !Acknowledges(notice, t.expectedBlock) || t.finalData ||
     notice.next.read.ReadFails? || !notice.next.send.SendOk?)
  }

  /** Exactly those make the handler release the transfer. */
  lemma ReleasedExactlyWhen(t: Transfer, f: File, v: Transport, notice: Notice)
    requires SocketReady(v) && t.initialized && f.Valid() && f.open
    requires t.state == WaitAck || t.state == Failed
    ensures OnReady(t, f, v, notice).release <==> Ends(t, v, notice)
  {
    hide EncodeAck;
    if FromPeer(t, v, notice) {
      var data := Delivered(notice);
      assert Received(v, MAX_PACKET_SIZE, notice.recv) == (Ok, data);
      if t.state == WaitAck {
        AckBijection(data, t.expectedBlock, []);
        OtherPacketOrNextBlock(t, f, v, data, notice.next);
      }
    }
  }

  lemma OtherPacketOrNextBlock(t: Transfer, f: File, v: Transport, data: seq<byte>, io: NextIo)
    requires SocketReady(v) && t.initialized && f.Valid() && f.open && t.state == WaitAck
    ensures var r := OnPacket(t, f, v, data, io);
            if data != EncodeAck(t.expectedBlock) then r.status != Ok
            else if t.finalData then r.transfer.state == Complete
            else r.status == Ok <==> io.read.ReadOk? && io.send.SendOk?
  {
    hide EncodeAck;
    if data != EncodeAck(t.expectedBlock) {
      OtherPacketIsRefused(t, f, v, data, io);
    } else {
      AckBijection(data, t.expectedBlock, []);
    }
  }

  // ---------- every run ----------

  /** The session while or after it streams `content`, having sent `sent` in all. */
  ghost predicate Streaming(s: Session, content: seq<byte>, n: nat) {
    match s
    case Active(t, f) =>
      f.Valid() && n <= LastBlock(content) && (InStream(t, f, content, n) || t.state == Failed)
    case Released(completed) =>
      n <= LastBlock(content) && (completed ==> n == LastBlock(content))
  }

  /** The handler run consumes the ACK of the outstanding block. */
  predicate Accepts(s: Session, v: Transport, notice: Notice) {
    s.Active? && s.transfer.state == WaitAck && FromPeer(s.transfer, v, notice) &&
    Acknowledges(notice, s.transfer.expectedBlock)
  }

  function Accepted(s: Session, v: Transport, notices: seq<Notice>): nat
    requires SessionValid(s)
    decreases |notices|
  {
    if notices == [] then 0
    else (if Accepts(s, v, notices[0]) then 1 else 0) + Accepted(Notified(s, v, notices[0]).0, v, notices[1..])
  }

  /** Handler runs that bring a datagram from the peer. */
  function FromPeerCount(peer: Endpoint, v: Transport, notices: seq<Notice>): nat
    decreases |notices|
  {
    if notices == [] then 0
    else
      (if Delivers(v, notices[0]) && notices[0].recv.source == peer then 1 else 0) +
      FromPeerCount(peer, v, notices[1..])
  }

  /** One step of the run theorems below. */
  lemma StreamStep(s: Session, v: Transport, notice: Notice, content: seq<byte>, n: nat)
    requires Streaming(s, content, n) && SocketReady(v)
    ensures SessionValid(s)
    ensures var (s', sent) := Notified(s, v, notice);
            (sent == [] && Streaming(s', content, n)) ||
            (sent == [DataDatagram(content, n + 1)] && Streaming(s', content, n + 1))
  {
    if s.Active? {
      if !FromPeer(s.transfer, v, notice) {
        OtherNoticeStep(s.transfer, s.file, v, notice);
      } else if s.transfer.state == Failed {
        FailedStep(s.transfer, s.file, v, notice);
      } else {
        PeerDatagramStep(s.transfer, s.file, v, notice, content, n);
      }
    }
  }

  /** Whatever the peer, other endpoints and the system do, the sender's datagrams are the
      file's blocks in order, each once; while it waits it is at the last of them, with
      the position, the buffer and the flag that block prescribes; and if it completes, it
      has sent them all. */
  lemma {:induction false} SendsTheFileInOrder(s: Session, v: Transport, notices: seq<Notice>, content: seq<byte>, n: nat)
    requires Streaming(s, content, n) && SocketReady(v)
    ensures SessionValid(s)
    ensures var (s', sent) := NotifiedAll(s, v, notices);
            Streaming(s', content, n + |sent|) &&
            DataDatagrams(content, n) + sent == DataDatagrams(content, n + |sent|)
    decreases |notices|
  {
    hide Notified, DataDatagram;
    if notices == [] {
      assert DataDatagrams(content, n) + [] == DataDatagrams(content, n);
    } else {
      StreamStep(s, v, notices[0], content, n);
      var (s1, sent1) := Notified(s, v, notices[0]);
      SendsTheFileInOrder(s1, v, notices[1..], content, n + |sent1|);
      var sent2 := NotifiedAll(s1, v, notices[1..]).1;
      DatagramsContinue(content, n, sent1, sent2);
    }
  }

  lemma DatagramsContinue(content: seq<byte>, n: nat, sent1: seq<seq<byte>>, sent2: seq<seq<byte>>)
    requires sent1 == [] || sent1 == [DataDatagram(content, n + 1)]
    requires DataDatagrams(content, n + |sent1|) + sent2 == DataDatagrams(content, n + |sent1| + |sent2|)
    ensures DataDatagrams(content, n) + (sent1 + sent2) == DataDatagrams(content, n + |sent1 + sent2|)
  {
  }

  /** So the payloads sent always concatenate to a prefix of the file, and at completion to the file. */
  lemma SendsPrefixes(s: Session, v: Transport, notices: seq<Notice>, content: seq<byte>, n: nat)
    requires Streaming(s, content, n) && SocketReady(v)
    ensures SessionValid(s)
    ensures var (s', sent) := NotifiedAll(s, v, notices);
            var payloads := Payloads(DataDatagrams(content, n) + sent);
            payloads == content[..Offset(content, n + |sent|)] &&
            (s' == Released(true) ==> payloads == content)
  {
    hide Notified, DataDatagram;
    SendsTheFileInOrder(s, v, notices, content, n);
    PayloadsAreThePrefix(content, n + |NotifiedAll(s, v, notices).1|);
    OnlyTheLastBlockIsShort(content, LastBlock(content));
  }

  ghost predicate Waiting(s: Session) {
    s.Active? && s.transfer.state == WaitAck
  }

  lemma AcknowledgedModulo(notice: Notice, n: nat)
    ensures Acknowledges(notice, n % 65536) == Acknowledges(notice, n)
  {
    hide EncodeAck, Delivered;
    assert n % 65536 % 65536 == n % 65536;
  }

  /** While an ACK is awaited, DATA goes out only for an accepted ACK. */
  lemma AckStep(s: Session, v: Transport, notice: Notice, content: seq<byte>, n: nat)
    requires Streaming(s, content, n) && SocketReady(v) && Waiting(s)
    ensures var (s', sent) := Notified(s, v, notice);
            (if Accepts(s, v, notice) then
               (Waiting(s') && |sent| == 1) || (s'.Released? && sent == [])
             else sent == [] && s' != Released(true)) &&
            SessionValid(s') && (s'.Released? || Waiting(s') || s'.transfer.state == Failed)
  {
    hide Notified, DataDatagram, Acknowledges, FromPeer, Delivers, Chunk;
    var t, f := s.transfer, s.file;
    AcknowledgedModulo(notice, n);
    if FromPeer(t, v, notice) {
      PeerDatagramStep(t, f, v, notice, content, n);
    } else {
      OtherNoticeStep(t, f, v, notice);
    }
  }

  /** One DATA goes out for each ACK accepted, none for anything else: while block n is
      outstanding the sender has sent one more than it accepted, at completion as many. */
  lemma {:induction false} OneDataForEachAck(s: Session, v: Transport, notices: seq<Notice>, content: seq<byte>, n: nat)
    requires Streaming(s, content, n) && SocketReady(v) && Waiting(s)
    ensures var (s', sent) := NotifiedAll(s, v, notices);
            var accepted := Accepted(s, v, notices);
            (Waiting(s') ==> |sent| == accepted) &&
            (s' == Released(true) ==> |sent| + 1 == accepted)
    decreases |notices|
  {
    if notices == [] {
    } else {
      AckStep(s, v, notices[0], content, n);
      StreamStep(s, v, notices[0], content, n);
      var (s1, sent1) := Notified(s, v, notices[0]);
      if Waiting(s1) {
        OneDataForEachAck(s1, v, notices[1..], content, n + |sent1|);
      } else {
        StopsForGood(s1, v, notices[1..]);
      }
    }
  }

  /** A released or failed transfer sends nothing, accepts nothing and never completes. */
  lemma {:induction false} StopsForGood(s: Session, v: Transport, notices: seq<Notice>)
    requires SessionValid(s) && SocketReady(v)
    requires s.Released? || s.transfer.state == Failed
    ensures var (s', sent) := NotifiedAll(s, v, notices);
            sent == [] && Accepted(s, v, notices) == 0 &&
            (s.Released? ==> s' == s) &&
            (s.Active? ==> s' == Released(false) || (s'.Active? && s'.transfer.state == Failed))
    decreases |notices|
  {
    if notices == [] {
    } else {
      if s.Active? {
        if FromPeer(s.transfer, v, notices[0]) {
          FailedStep(s.transfer, s.file, v, notices[0]);
        } else {
          OtherNoticeStep(s.transfer, s.file, v, notices[0]);
        }
      }
      StopsForGood(Notified(s, v, notices[0]).0, v, notices[1..]);
    }
  }

  lemma PeerNeverChanges(s: Session, v: Transport, notice: Notice)
    requires SessionValid(s)
    ensures var s' := Notified(s, v, notice).0;
            s.Active? && s'.Active? ==> s'.transfer.peer == s.transfer.peer
  {
  }

  /** With block n outstanding, LastBlock - n + 1 datagrams from the peer, whatever they
      are, release the transfer: LastBlock of them in all after the first block. */
  lemma {:induction false} PeerDatagramsReleaseTheTransfer(
      s: Session, v: Transport, notices: seq<Notice>, content: seq<byte>, n: nat, peer: Endpoint)
    requires Streaming(s, content, n) && SocketReady(v)
    requires s.Active? ==> s.transfer.peer == peer
    requires FromPeerCount(peer, v, notices) >= LastBlock(content) - n + 1
    ensures SessionValid(s) && NotifiedAll(s, v, notices).0.Released?
    decreases |notices|
  {
    hide Notified, InStream, DataDatagram;
    if s.Released? {
      ReleasedStays(s, v, notices);
    } else if notices != [] {
      StreamStep(s, v, notices[0], content, n);
      PeerNeverChanges(s, v, notices[0]);
      var (s1, sent1) := Notified(s, v, notices[0]);
      if !FromPeer(s.transfer, v, notices[0]) {
        OtherNoticeStep(s.transfer, s.file, v, notices[0]);
      } else if s.transfer.state == Failed {
        FailedStep(s.transfer, s.file, v, notices[0]);
      } else {
        PeerDatagramStep(s.transfer, s.file, v, notices[0], content, n);
      }
      if s1.Released? {
        ReleasedStays(s1, v, notices[1..]);
      } else {
        PeerDatagramsReleaseTheTransfer(s1, v, notices[1..], content, n + |sent1|, peer);
      }
    }
  }

  /** A silent peer keeps the transfer for ever: without a datagram from it nothing is sent and
      nothing is released. */
  lemma {:induction false} SilentPeerKeepsTheTransfer(s: Session, v: Transport, notices: seq<Notice>)
    requires SessionValid(s) && SocketReady(v) && s.Active?
    requires FromPeerCount(s.transfer.peer, v, notices) == 0
    ensures var (s', sent) := NotifiedAll(s, v, notices);
            sent == [] && (s' == s || s' == Active(s.transfer.(state := Failed), s.file))
    decreases |notices|
  {
    hide Notified;
    if notices == [] {
    } else {
      OtherNoticeStep(s.transfer, s.file, v, notices[0]);
      SilentPeerKeepsTheTransfer(Notified(s, v, notices[0]).0, v, notices[1..]);
    }
  }

  /** The notice reports neither an error nor a failed receive on the transfer's socket. */
  predicate Harmless(v: Transport, notice: Notice) {
    notice.fd == FdOf(v) ==> !notice.events.error && (notice.events.read ==> !notice.recv.RecvFails?)
  }

  lemma HarmlessStep(t: Transfer, f: File, v: Transport, notice: Notice)
    requires f.Valid() && SocketReady(v) && Harmless(v, notice) && !FromPeer(t, v, notice)
    ensures Notified(Active(t, f), v, notice) == (Active(t, f), [])
  {
  }

  /** Any other notice that brings nothing from the peer marks the transfer failed for good. */
  lemma HarmfulStep(t: Transfer, f: File, v: Transport, notice: Notice)
    requires f.Valid() && SocketReady(v) && !Harmless(v, notice) && !FromPeer(t, v, notice)
    ensures Notified(Active(t, f), v, notice) == (Active(t.(state := Failed), f), [])
  {
  }

  /** The peer acknowledges blocks n, n + 1, ... in order, every read and send that has to bring
      a next block succeeds, and nothing else that arrives does harm. */
  predicate Cooperative(peer: Endpoint, v: Transport, notices: seq<Notice>, n: nat, last: nat)
    decreases |notices|
  {
    notices == [] ||
    (if Delivers(v, notices[0]) && notices[0].recv.source == peer then
       Acknowledges(notices[0], n) && (n == last || (notices[0].next.read.ReadOk? && notices[0].next.send.SendOk?)) &&
       Cooperative(peer, v, notices[1..], n + 1, last)
     else Harmless(v, notices[0]) && Cooperative(peer, v, notices[1..], n, last))
  }

  /** For such a peer the bound is sharp: with block n outstanding the transfer is released exactly
      when LastBlock - n + 1 datagrams have come from it, and before that it is at block n plus
      their number. */
  lemma {:induction false} CooperativePeersReleaseAtTheBound(
      t: Transfer, f: File, v: Transport, notices: seq<Notice>, content: seq<byte>, n: nat)
    requires InStream(t, f, content, n) && SocketReady(v) && Cooperative(t.peer, v, notices, n, LastBlock(content))
    ensures var s := NotifiedAll(Active(t, f), v, notices).0;
            var count := FromPeerCount(t.peer, v, notices);
            if count < LastBlock(content) - n + 1 then
              s.Active? && InStream(s.transfer, s.file, content, n + count)
            else s == Released(true)
    decreases |notices|
  {
    hide Notified, Acknowledges, Delivers, Harmless, DataDatagram, LastBlock, Offset;
    if notices == [] {
    } else if !FromPeer(t, v, notices[0]) {
      HarmlessStep(t, f, v, notices[0]);
      CooperativePeersReleaseAtTheBound(t, f, v, notices[1..], content, n);
    } else {
      PeerDatagramStep(t, f, v, notices[0], content, n);
      var s1 := Notified(Active(t, f), v, notices[0]).0;
      if n == LastBlock(content) {
        ReleasedStays(s1, v, notices[1..]);
      } else {
        CooperativePeersReleaseAtTheBound(s1.transfer, s1.file, v, notices[1..], content, n + 1);
      }
    }
  }

  /** The first `k` notices bring the ACKs of the blocks from `n` to the last, in order, and
      nothing that does harm. */
  predicate AllAcknowledged(peer: Endpoint, v: Transport, notices: seq<Notice>, n: nat, last: nat, k: nat) {
    k <= |notices| && n <= last + 1 &&
    Cooperative(peer, v, notices[..k], n, last) && FromPeerCount(peer, v, notices[..k]) == last + 1 - n
  }

  ghost predicate AcknowledgedToTheEnd(peer: Endpoint, v: Transport, notices: seq<Notice>, n: nat, last: nat) {
    exists k :: AllAcknowledged(peer, v, notices, n, last, k)
  }

  lemma AllAcknowledgedStep(peer: Endpoint, v: Transport, notices: seq<Notice>, n: nat, last: nat, k: nat)
    requires notices != [] && n <= last
    ensures !AllAcknowledged(peer, v, notices, n, last, 0)
    ensures AllAcknowledged(peer, v, notices, n, last, k + 1) <==>
            if Delivers(v, notices[0]) && notices[0].recv.source == peer then
              Acknowledges(notices[0], n) &&
              (n == last || (notices[0].next.read.ReadOk? && notices[0].next.send.SendOk?)) &&
              AllAcknowledged(peer, v, notices[1..], n + 1, last, k)
            else Harmless(v, notices[0]) && AllAcknowledged(peer, v, notices[1..], n, last, k)
  {
    hide Delivers, Acknowledges, Harmless;
    if k < |notices| {
      assert notices[..k + 1][1..] == notices[1..][..k];
    }
  }

  /** Exactly which notices complete a transfer: with block n outstanding, those that begin with
      the ACKs of all blocks from n on, in order, and without any harm in between. */
  lemma {:induction false} CompletesExactlyWhen(
      t: Transfer, f: File, v: Transport, notices: seq<Notice>, content: seq<byte>, n: nat)
    requires InStream(t, f, content, n) && SocketReady(v)
    ensures NotifiedAll(Active(t, f), v, notices).0 == Released(true) <==>
            AcknowledgedToTheEnd(t.peer, v, notices, n, LastBlock(content))
    decreases |notices|
  {
    hide Notified, Acknowledges, Delivers, Harmless, DataDatagram, LastBlock, Offset, AcknowledgedToTheEnd;
    var last := LastBlock(content);
    if notices == [] {
      NothingAcknowledged(t.peer, v, n, last);
    } else {
      var s1 := Notified(Active(t, f), v, notices[0]).0;
      AcknowledgedStep(t.peer, v, notices, n, last);
      if !FromPeer(t, v, notices[0]) {
        if Harmless(v, notices[0]) {
          HarmlessStep(t, f, v, notices[0]);
          CompletesExactlyWhen(t, f, v, notices[1..], content, n);
        } else {
          HarmfulStep(t, f, v, notices[0]);
          StopsForGood(s1, v, notices[1..]);
        }
      } else {
        PeerDatagramStep(t, f, v, notices[0], content, n);
        if s1.Released? {
          ReleasedStays(s1, v, notices[1..]);
          EverythingAcknowledged(t.peer, v, notices[1..], last);
        } else {
          CompletesExactlyWhen(s1.transfer, s1.file, v, notices[1..], content, n + 1);
        }
      }
    }
  }

  lemma NothingAcknowledged(peer: Endpoint, v: Transport, n: nat, last: nat)
    requires n <= last
    ensures !AcknowledgedToTheEnd(peer, v, [], n, last)
  {
  }

  lemma EverythingAcknowledged(peer: Endpoint, v: Transport, notices: seq<Notice>, last: nat)
    ensures AcknowledgedToTheEnd(peer, v, notices, last + 1, last)
  {
    assert AllAcknowledged(peer, v, notices, last + 1, last, 0);
  }

  /** The first notice decides, and leaves the rest to the remaining ones. */
  lemma AcknowledgedStep(peer: Endpoint, v: Transport, notices: seq<Notice>, n: nat, last: nat)
    requires notices != [] && n <= last
    ensures AcknowledgedToTheEnd(peer, v, notices, n, last) <==>
            if Delivers(v, notices[0]) && notices[0].recv.source == peer then
              Acknowledges(notices[0], n) &&
              (n == last || (notices[0].next.read.ReadOk? && notices[0].next.send.SendOk?)) &&
              AcknowledgedToTheEnd(peer, v, notices[1..], n + 1, last)
            else Harmless(v, notices[0]) && AcknowledgedToTheEnd(peer, v, notices[1..], n, last)
  {
    hide Acknowledges, Harmless, AllAcknowledged;
    if AcknowledgedToTheEnd(peer, v, notices, n, last) {
      var k: nat :| AllAcknowledged(peer, v, notices, n, last, k);
      AllAcknowledgedStep(peer, v, notices, n, last, if k > 0 then k - 1 else 0);
    }
    var fromPeer := Delivers(v, notices[0]) && notices[0].recv.source == peer;
    var m := if fromPeer then n + 1 else n;
    if AcknowledgedToTheEnd(peer, v, notices[1..], m, last) {
      var k: nat :| AllAcknowledged(peer, v, notices[1..], m, last, k);
      AllAcknowledgedStep(peer, v, notices, n, last, k);
    }
  }

  lemma {:induction false} ReleasedStays(s: Session, v: Transport, notices: seq<Notice>)
    requires s.Released?
    ensures NotifiedAll(s, v, notices) == (s, [])
    decreases |notices|
  {
    if notices == [] {
    } else {
      ReleasedStays(s, v, notices[1..]);
      assert Notified(s, v, notices[0]).1 + NotifiedAll(s, v, notices[1..]).1 == [];
    }
  }

  // ---------- foreign endpoints ----------

  /** The notices left when every one that reads a datagram of another endpoint is deleted. */
  function WithoutForeign(peer: Endpoint, v: Transport, notices: seq<Notice>): seq<Notice>
    decreases |notices|
  {
    if notices == [] then []
    else
      var rest := WithoutForeign(peer, v, notices[1..]);
      if Delivers(v, notices[0]) && notices[0].recv.source != peer then rest else [notices[0]] + rest
  }

  /** Datagrams of other endpoints might as well not have arrived. */
  lemma {:induction false} ForeignDatagramsDoNothing(s: Session, v: Transport, notices: seq<Notice>, peer: Endpoint)
    requires SessionValid(s) && SocketReady(v)
    requires s.Active? ==> s.transfer.peer == peer
    ensures NotifiedAll(s, v, notices) == NotifiedAll(s, v, WithoutForeign(peer, v, notices))
    decreases |notices|
  {
    if notices == [] {
    } else {
      var s1 := Notified(s, v, notices[0]).0;
      PeerNeverChanges(s, v, notices[0]);
      ForeignDatagramsDoNothing(s1, v, notices[1..], peer);
      var kept := WithoutForeign(peer, v, notices);
      if Delivers(v, notices[0]) && notices[0].recv.source != peer {
        assert Notified(s, v, notices[0]) == (s, []);
        assert [] + NotifiedAll(s, v, notices[1..]).1 == NotifiedAll(s, v, notices[1..]).1;
      } else {
        assert kept[1..] == WithoutForeign(peer, v, notices[1..]);
      }
    }
  }
}
