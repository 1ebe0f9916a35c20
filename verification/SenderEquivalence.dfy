/**
 The blocking upload loop and the event-driven sender, fed the same
 acknowledgements: they send the same DATA datagrams exactly up to the file size
 at which the loop's unwrapped block number stops matching any acknowledgement.
*/
module SenderEquivalence {
  import opened Wire
  import opened Packet
  import opened PacketLaws
  import opened Transports
  import opened Files
  import opened Transfers
  import opened SenderStream
  import opened LegacyClient
  import opened LegacyLaws

  function AckNotice(v: Transport, peer: Endpoint, block: uint16): Notice {
    Notice(FdOf(v), EventMask(true, false, false), RecvOk(EncodeAck(block), peer), NextIo(ReadOk, SendOk))
  }

  function AckNotices(v: Transport, peer: Endpoint, acks: seq<uint16>): (r: seq<Notice>)
    ensures |r| == |acks|
  {
    seq(|acks|, k requires 0 <= k < |acks| => AckNotice(v, peer, acks[k]))
  }

  function AckReplies(acks: seq<uint16>): (r: seq<Option<seq<byte>>>)
    ensures |r| == |acks|
  {
    seq(|acks|, k requires 0 <= k < |acks| => Some(EncodeAck(acks[k])))
  }

  /** Everything the event-driven sender sends: the first block, and what the acknowledgements bring. */
  function EventDriven(t: Transfer, f: File, v: Transport, content: seq<byte>, n: nat, acks: seq<uint16>)
    : seq<seq<byte>>
    requires f.Valid() && n >= 1
  {
    [DataDatagram(content, n)] + NotifiedAll(Active(t, f), v, AckNotices(v, t.peer, acks)).1
  }

  lemma SameDatagram(content: seq<byte>, n: nat)
    requires 1 <= n <= LastBlock(content)
    ensures UploadDatagram(content, Offset(content, n - 1), n) == DataDatagram(content, n)
  {
    hide BlockBytes;
    BlockBytesAreLow16Bits(n);
    assert U16(DATA) == [0, 3];
  }

  /** The loop goes on for exactly the acknowledgement of its block, while that number is decodable. */
  lemma ContinuesOnItsOwnAck(signed: bool, ack: uint16, n: nat)
    requires 1 <= n <= MaxBlock(signed) + 1
    ensures Continues(signed, Some(EncodeAck(ack)), n) <==> n <= MaxBlock(signed) && ack == n
  {
  }

  lemma AckNoticeAcknowledges(v: Transport, peer: Endpoint, ack: uint16, n: nat)
    ensures Acknowledges(AckNotice(v, peer, ack), n) <==> ack == n % 65536
  {
    var b := EncodeAck(ack);
    assert Delivered(AckNotice(v, peer, ack)) == b;
    assert b[2..] == U16(ack) && EncodeAck(n % 65536)[2..] == U16(n % 65536);
    ReadWrittenU16(ack, []);
    ReadWrittenU16(n % 65536, []);
    assert U16(ack) + [] == U16(ack) && U16(n % 65536) + [] == U16(n % 65536);
  }

  /** From block n on, the two senders send the same datagrams for every list of acknowledgements. */
  lemma {:induction false} SendersAgreeFrom(
      signed: bool, content: seq<byte>, t: Transfer, f: File, v: Transport, n: nat, acks: seq<uint16>)
    requires InStream(t, f, content, n) && SocketReady(v)
    requires LastBlock(content) <= MaxBlock(signed) + 1
    ensures Upload(signed, content, Offset(content, n - 1), n - 1, AckReplies(acks)) ==
            EventDriven(t, f, v, content, n, acks)
    decreases |acks|
  {
    hide Notified, DataDatagram, Continues, UploadDatagram, EncodeAck, Acknowledges, FdOf, Chunk;
    SameDatagram(content, n);
    OnlyTheLastBlockIsShort(content, n);
    var replies := AckReplies(acks);
    var notices := AckNotices(v, t.peer, acks);
    var s := Active(t, f);
    if acks == [] {
    } else {
      var rest := acks[1..];
      assert replies[1..] == AckReplies(rest);
      assert notices[1..] == AckNotices(v, t.peer, rest);
      ContinuesOnItsOwnAck(signed, acks[0], n);
      AckNoticeAcknowledges(v, t.peer, acks[0], n);
      PeerDatagramStep(t, f, v, notices[0], content, n);
      var (s1, sent1) := Notified(s, v, notices[0]);
      var more := NotifiedAll(s1, v, notices[1..]).1;
      assert NotifiedAll(s, v, notices).1 == sent1 + more;
      if Acknowledges(notices[0], n) && n < LastBlock(content) {
        SendersAgreeFrom(signed, content, s1.transfer, s1.file, v, n + 1, rest);
      } else {
        ReleasedStays(s1, v, notices[1..]);
        assert more == [];
      }
    }
  }

  /** The acknowledgements 1, 2, 3, ... on the wire. */
  function InOrder(count: nat, from: nat): (r: seq<uint16>)
    ensures |r| == count
  {
    seq(count, k requires 0 <= k < count => (from + k) % 65536)
  }

  lemma {:induction false} InOrderIsCooperative(v: Transport, peer: Endpoint, count: nat, n: nat, last: nat)
    requires SocketReady(v)
    ensures Cooperative(peer, v, AckNotices(v, peer, InOrder(count, n)), n, last)
    ensures FromPeerCount(peer, v, AckNotices(v, peer, InOrder(count, n))) == count
    decreases count
  {
    hide Acknowledges, EncodeAck;
    if count == 0 {
    } else {
      var acks := InOrder(count, n);
      var notices := AckNotices(v, peer, acks);
      assert acks[1..] == InOrder(count - 1, n + 1);
      assert notices[1..] == AckNotices(v, peer, acks[1..]);
      AckNoticeAcknowledges(v, peer, acks[0], n);
      InOrderIsCooperative(v, peer, count - 1, n + 1, last);
    }
  }

  /** Every number of datagrams up to LastBlock - n can come from the peer without releasing the
      transfer: that many acknowledgements in order leave it active at block n + k. */
  lemma ReleaseBoundIsReached(t: Transfer, f: File, v: Transport, content: seq<byte>, n: nat, k: nat)
    requires InStream(t, f, content, n) && SocketReady(v) && k <= LastBlock(content) - n
    ensures var notices := AckNotices(v, t.peer, InOrder(k, n));
            var s := NotifiedAll(Active(t, f), v, notices).0;
            FromPeerCount(t.peer, v, notices) == k && s.Active? && InStream(s.transfer, s.file, content, n + k)
  {
    hide NotifiedAll, Cooperative, FromPeerCount, AckNotices, InOrder, DataDatagram;
    InOrderIsCooperative(v, t.peer, k, n, LastBlock(content));
    CooperativePeersReleaseAtTheBound(t, f, v, AckNotices(v, t.peer, InOrder(k, n)), content, n);
  }

  lemma {:induction false} EventDrivenKeepsSending(
      content: seq<byte>, t: Transfer, f: File, v: Transport, n: nat, count: nat)
    requires InStream(t, f, content, n) && SocketReady(v) && n + count <= LastBlock(content)
    ensures |EventDriven(t, f, v, content, n, InOrder(count, n))| == count + 1
    decreases count
  {
    hide Notified, DataDatagram, EncodeAck, FdOf;
    if count == 0 {
    } else {
      var acks := InOrder(count, n);
      var notices := AckNotices(v, t.peer, acks);
      assert acks[1..] == InOrder(count - 1, n + 1);
      assert notices[1..] == AckNotices(v, t.peer, acks[1..]);
      AckNoticeAcknowledges(v, t.peer, acks[0], n);
      PeerDatagramStep(t, f, v, notices[0], content, n);
      var s1 := Notified(Active(t, f), v, notices[0]).0;
      EventDrivenKeepsSending(content, s1.transfer, s1.file, v, n + 1, count - 1);
    }
  }

  lemma {:induction false} UploadStops(signed: bool, content: seq<byte>, position: nat, block: nat, acks: seq<uint16>)
    requires position <= |content| && block <= MaxBlock(signed)
    ensures |Upload(signed, content, position, block, AckReplies(acks))| <= MaxBlock(signed) + 1 - block
    decreases |acks|
  {
    if acks == [] {
    } else {
      ContinuesOnItsOwnAck(signed, acks[0], block + 1);
      assert AckReplies(acks)[1..] == AckReplies(acks[1..]);
      if block < MaxBlock(signed) {
        UploadStops(signed, content, Min(position + BLOCK_SIZE, |content|), block + 1, acks[1..]);
      }
    }
  }

  /** The senders agree on every list of acknowledgements if and only if the file has at most
      one block more than the loop can count: 65536 blocks, or 128 with a signed `char`. */
  lemma SendersAgree(signed: bool, content: seq<byte>, t: Transfer, f: File, v: Transport)
    requires InStream(t, f, content, 1) && SocketReady(v)
    ensures (forall acks: seq<uint16> ::
               Upload(signed, content, 0, 0, AckReplies(acks)) == EventDriven(t, f, v, content, 1, acks))
            <==> LastBlock(content) <= MaxBlock(signed) + 1
  {
    if LastBlock(content) <= MaxBlock(signed) + 1 {
      forall acks: seq<uint16>
        ensures Upload(signed, content, 0, 0, AckReplies(acks)) == EventDriven(t, f, v, content, 1, acks)
      {
        SendersAgreeFrom(signed, content, t, f, v, 1, acks);
      }
    } else {
      var acks := InOrder(MaxBlock(signed) + 1, 1);
      EventDrivenKeepsSending(content, t, f, v, 1, MaxBlock(signed) + 1);
      UploadStops(signed, content, 0, 0, acks);
      assert |Upload(signed, content, 0, 0, AckReplies(acks))| != |EventDriven(t, f, v, content, 1, acks)|;
    }
  }

  // ---------- the upload session, reply by reply ----------

  /** The reply is an ACK packet with the number `block`, which the client decodes. */
  predicate IsAckReply(signed: bool, reply: Option<seq<byte>>, block: nat) {
    reply.Some? && |reply.value| >= 4 && reply.value[1] == 4 && Numbers(signed, reply.value[2], reply.value[3], block)
  }

  /** How many of the replies, from the first on, are the ACKs of the blocks `block`, block + 1, ... in order. */
  function AcksInOrder(signed: bool, replies: seq<Option<seq<byte>>>, block: nat): (n: nat)
    ensures n <= |replies|
  {
    if replies == [] || !IsAckReply(signed, replies[0], block) then 0
    else 1 + AcksInOrder(signed, replies[1..], block + 1)
  }

  lemma ContinuesWhen(signed: bool, reply: Option<seq<byte>>, block: nat)
    ensures Continues(signed, reply, block) <==> IsAckReply(signed, reply, block)
  {
    hide DecodeBlock, CharValue, Numbers;
    if reply.Some? && |reply.value| >= 4 {
      DecodedWhen(signed, reply.value[2], reply.value[3], block);
      OpcodeByte(signed, reply.value[1], 4);
    }
  }

  /** The datagrams of blocks `n` up to and including `last`. */
  function DataFrom(content: seq<byte>, n: nat, last: nat): seq<seq<byte>>
    requires n >= 1
    decreases last + 1 - n
  {
    if n > last then [] else [DataDatagram(content, n)] + DataFrom(content, n + 1, last)
  }

  lemma {:induction false} DataFromIsASlice(content: seq<byte>, n: nat, last: nat)
    requires 1 <= n <= last + 1
    ensures DataDatagrams(content, n - 1) + DataFrom(content, n, last) == DataDatagrams(content, last)
    decreases last + 1 - n
  {
    hide DataDatagram;
    if n > last {
      assert DataDatagrams(content, n - 1) + [] == DataDatagrams(content, last);
    } else {
      DataFromIsASlice(content, n + 1, last);
      assert DataDatagrams(content, n) == DataDatagrams(content, n - 1) + [DataDatagram(content, n)];
      var rest := DataFrom(content, n + 1, last);
      assert DataDatagrams(content, n - 1) + ([DataDatagram(content, n)] + rest) == DataDatagrams(content, n) + rest;
    }
  }

  lemma {:induction false} UploadSendsFrom(signed: bool, content: seq<byte>, n: nat, replies: seq<Option<seq<byte>>>)
    requires 1 <= n <= LastBlock(content)
    ensures Upload(signed, content, Offset(content, n - 1), n - 1, replies) ==
            DataFrom(content, n, Min(n + AcksInOrder(signed, replies, n), LastBlock(content)))
    decreases |replies|
  {
    hide DataDatagram, UploadDatagram, Continues, IsAckReply, Chunk;
    SameDatagram(content, n);
    OnlyTheLastBlockIsShort(content, n);
    assert DataFrom(content, n + 1, n) == [];
    if replies != [] {
      ContinuesWhen(signed, replies[0], n);
      if IsAckReply(signed, replies[0], n) && n < LastBlock(content) {
        UploadSendsFrom(signed, content, n + 1, replies[1..]);
      }
    }
  }

  /** The whole upload: the request, and then as many blocks of the file, in order and each once, as
      ACKs came in order from ACK 0 on, up to the last block. Any other reply stops it for good. */
  lemma UploadSendsExactly(signed: bool, filename: seq<byte>, content: seq<byte>, replies: seq<Option<seq<byte>>>)
    ensures UploadSession(signed, filename, content, replies) ==
            [[0, 2] + filename + [0] + [111, 99, 116, 101, 116] + [0]] +
            DataDatagrams(content, Min(AcksInOrder(signed, replies, 0), LastBlock(content)))
  {
    hide DataDatagram, Continues, IsAckReply, Upload;
    assert DataDatagrams(content, 0) == [];
    if replies != [] {
      ContinuesWhen(signed, replies[0], 0);
      if IsAckReply(signed, replies[0], 0) {
        UploadSendsFrom(signed, content, 1, replies[1..]);
        DataFromIsASlice(content, 1, Min(AcksInOrder(signed, replies, 0), LastBlock(content)));
      }
    }
  }
}
