/**
 The sender and the download loop joined by a channel that loses nothing and
 keeps order, with every read and send succeeding. The exchange is followed
 datagram by datagram to its end.
*/
module LockStep {
  import opened Wire
  import opened Packet
  import opened PacketLaws
  import opened Transports
  import opened Files
  import opened Transfers
  import opened SenderStream
  import opened LegacyClient
  import opened LegacyLaws
  import opened SenderEquivalence
  import opened Servers
  import opened Ownership
  import opened Requests

  /** Both ends, the datagrams in flight each way, and how many of each kind were sent. */
  datatype Link = Link(
    session: Session, client: Client, toClient: seq<seq<byte>>, toServer: seq<seq<byte>>,
    dataSent: seq<seq<byte>>, acksSent: seq<seq<byte>>)

  ghost predicate LinkValid(link: Link) {
    SessionValid(link.session) && forall k :: 0 <= k < |link.toClient| ==> |link.toClient[k]| >= 4
  }

  /** Deliver the datagram in flight. */
  function Deliver(signed: bool, v: Transport, peer: Endpoint, link: Link): Link
    requires LinkValid(link)
  {
    if link.toClient != [] then
      var (client, acks) := OnDatagram(signed, link.client, link.toClient[0]);
      link.(client := client, toClient := link.toClient[1..],
            toServer := link.toServer + acks, acksSent := link.acksSent + acks)
    else if link.toServer != [] then
      var notice := Notice(FdOf(v), EventMask(true, false, false), RecvOk(link.toServer[0], peer), NextIo(ReadOk, SendOk));
      var (session, sent) := Notified(link.session, v, notice);
      link.(session := session, toServer := link.toServer[1..],
            toClient := link.toClient + sent, dataSent := link.dataSent + sent)
    else link
  }

  /** The first block is on its way to a client that has just sent its request. */
  ghost predicate Opening(link: Link, content: seq<byte>, peer: Endpoint) {
    AwaitingClient(link, content, peer, 1)
  }

  /** Block n is on its way to the client, which has written the n - 1 before it. */
  ghost predicate AwaitingClient(link: Link, content: seq<byte>, peer: Endpoint, n: nat) {
    && link.session.Active? && InStream(link.session.transfer, link.session.file, content, n)
    && link.session.transfer.peer == peer
    && link.client == Client(Receiving, n, content[..Offset(content, n - 1)])
    && link.toClient == [DataDatagram(content, n)] && link.toServer == []
    && link.dataSent == DataDatagrams(content, n) && |link.acksSent| == n - 1
  }

  /** Block n has been written, and its ACK is on its way to the sender. */
  ghost predicate AwaitingSender(link: Link, content: seq<byte>, peer: Endpoint, n: nat) {
    && link.session.Active? && InStream(link.session.transfer, link.session.file, content, n)
    && link.session.transfer.peer == peer
    && link.client == (if n == LastBlock(content) then Client(Finished, n, content)
                       else Client(Receiving, n + 1, content[..Offset(content, n)]))
    && link.toClient == [] && link.toServer == [EncodeAck(n % 65536)]
    && link.dataSent == DataDatagrams(content, n) && |link.acksSent| == n
  }

  /** Both ends have finished, and nothing is in flight. */
  ghost predicate BothDone(link: Link, content: seq<byte>) {
    && link.session == Released(true)
    && link.client.status == Finished && link.client.written == content
    && link.toClient == [] && link.toServer == []
    && link.dataSent == DataDatagrams(content, LastBlock(content))
    && |link.acksSent| == LastBlock(content)
  }

  /** Both ends wait, and nothing is in flight. */
  ghost predicate BothStuck(link: Link, content: seq<byte>, signed: bool) {
    && SessionValid(link.session) && Waiting(link.session) && link.client.status == Receiving
    && link.toClient == [] && link.toServer == []
    && link.client.written == content[..Offset(content, MaxBlock(signed))]
  }

  lemma DataDatagramFields(content: seq<byte>, n: nat)
    requires n >= 1
    ensures var d := DataDatagram(content, n);
            |d| == 4 + |Chunk(content, n)| && d[0] == 0 && d[1] == 3 && d[4..] == Chunk(content, n) &&
            d[2] == (n % 65536) / 256 && d[3] == (n % 65536) % 256
  {
  }

  /** What the client does with block n of the file when it expects that number. */
  lemma ClientTakesBlock(signed: bool, c: Client, content: seq<byte>, n: nat)
    requires 1 <= n <= LastBlock(content) && n <= MaxBlock(signed)
    requires c == Client(Receiving, n, content[..Offset(content, n - 1)])
    ensures |DataDatagram(content, n)| >= 4
    ensures OnDatagram(signed, c, DataDatagram(content, n)) ==
            (if n == LastBlock(content) then Client(Finished, n, content)
             else Client(Receiving, n + 1, content[..Offset(content, n)]),
             [EncodeAck(n % 65536)])
  {
    hide DataDatagram, Chunk, Offset, LastBlock, MaxBlock, EncodeAck, AckDatagram, DecodeBlock;
    DataDatagramFields(content, n);
    DecodesUpToTheMax(signed, n);
    OnlyTheLastBlockIsShort(content, n);
    AckDatagramIsAck(n);
    NextChunkExtendsThePrefix(content, n);
    var d := DataDatagram(content, n);
    assert d[4..Min(|d|, BUFFER_SIZE)] == d[4..];
    assert n == LastBlock(content) ==> content[..Offset(content, n)] == content;
  }

  lemma ClientTurn(signed: bool, v: Transport, peer: Endpoint, link: Link, content: seq<byte>, n: nat)
    requires AwaitingClient(link, content, peer, n) && n <= MaxBlock(signed)
    ensures LinkValid(link)
    ensures AwaitingSender(Deliver(signed, v, peer, link), content, peer, n)
  {
    ClientTakesBlock(signed, link.client, content, n);
  }

  lemma SenderTurn(signed: bool, v: Transport, peer: Endpoint, link: Link, content: seq<byte>, n: nat)
    requires AwaitingSender(link, content, peer, n) && SocketReady(v)
    ensures LinkValid(link)
    ensures var link' := Deliver(signed, v, peer, link);
            if n == LastBlock(content) then BothDone(link', content)
            else AwaitingClient(link', content, peer, n + 1)
  {
    hide Notified, DataDatagram, EncodeAck, FdOf;
    var notice := Notice(FdOf(v), EventMask(true, false, false), RecvOk(link.toServer[0], peer), NextIo(ReadOk, SendOk));
    assert notice == AckNotice(v, peer, n % 65536);
    AckNoticeAcknowledges(v, peer, n % 65536, n);
    PeerDatagramStep(link.session.transfer, link.session.file, v, notice, content, n);
    if n < LastBlock(content) {
      assert DataDatagrams(content, n) + [DataDatagram(content, n + 1)] == DataDatagrams(content, n + 1);
    }
  }

  // ---------- the whole exchange ----------

  /** After `k` deliveries. */
  ghost predicate Exchange(signed: bool, v: Transport, peer: Endpoint, link: Link, k: nat, last: Link)
    decreases k
  {
    LinkValid(link) &&
    if k == 0 then last == link else Exchange(signed, v, peer, Deliver(signed, v, peer, link), k - 1, last)
  }

  /** The state every exchange is in after k deliveries. */
  ghost predicate Predicted(signed: bool, peer: Endpoint, content: seq<byte>, k: nat, link: Link) {
    var blocks := Min(LastBlock(content), MaxBlock(signed));
    if k < 2 * blocks then
      if k % 2 == 0 then AwaitingClient(link, content, peer, k / 2 + 1)
      else AwaitingSender(link, content, peer, k / 2 + 1)
    else if LastBlock(content) <= MaxBlock(signed) then BothDone(link, content)
    else if k == 2 * blocks then AwaitingClient(link, content, peer, MaxBlock(signed) + 1)
    else BothStuck(link, content, signed)
  }

  /** There is never more than one datagram in flight, so the channel has no choice to make. */
  lemma AtMostOneInFlight(signed: bool, peer: Endpoint, content: seq<byte>, k: nat, link: Link)
    requires Predicted(signed, peer, content, k, link)
    ensures |link.toClient| + |link.toServer| <= 1
  {
  }

  lemma StalledTurn(signed: bool, v: Transport, peer: Endpoint, link: Link, content: seq<byte>)
    requires AwaitingClient(link, content, peer, MaxBlock(signed) + 1)
    ensures LinkValid(link)
    ensures BothStuck(Deliver(signed, v, peer, link), content, signed)
  {
  }

  lemma NothingInFlight(signed: bool, v: Transport, peer: Endpoint, link: Link)
    requires SessionValid(link.session) && link.toClient == [] && link.toServer == []
    ensures LinkValid(link) && Deliver(signed, v, peer, link) == link
  {
  }

  lemma PredictedStep(signed: bool, v: Transport, peer: Endpoint, content: seq<byte>, k: nat, link: Link)
    requires Predicted(signed, peer, content, k, link) && SocketReady(v)
    ensures LinkValid(link)
    ensures Predicted(signed, peer, content, k + 1, Deliver(signed, v, peer, link))
  {
    hide Deliver, InStream, DataDatagram, DataDatagrams, LinkValid;
    var blocks := Min(LastBlock(content), MaxBlock(signed));
    var n := k / 2 + 1;
    if k < 2 * blocks && k % 2 == 0 {
      ClientTurn(signed, v, peer, link, content, n);
    } else if k < 2 * blocks {
      SenderTurn(signed, v, peer, link, content, n);
      assert (k + 1) / 2 + 1 == n + 1;
    } else if LastBlock(content) > MaxBlock(signed) && k == 2 * blocks {
      StalledTurn(signed, v, peer, link, content);
    } else {
      NothingInFlight(signed, v, peer, link);
    }
  }

  lemma {:induction false} ExchangeIsPredicted(
      signed: bool, v: Transport, peer: Endpoint, content: seq<byte>, done: nat, link: Link, k: nat, last: Link)
    requires Predicted(signed, peer, content, done, link) && SocketReady(v)
    requires Exchange(signed, v, peer, link, k, last)
    ensures Predicted(signed, peer, content, done + k, last)
    decreases k
  {
    hide Deliver, Predicted;
    if k == 0 {
    } else {
      PredictedStep(signed, v, peer, content, done, link);
      ExchangeIsPredicted(signed, v, peer, content, done + 1, Deliver(signed, v, peer, link), k - 1, last);
    }
  }

  lemma {:induction false} ExchangeGoesOn(
      signed: bool, v: Transport, peer: Endpoint, content: seq<byte>, done: nat, link: Link, k: nat) returns (last: Link)
    requires Predicted(signed, peer, content, done, link) && SocketReady(v)
    ensures Exchange(signed, v, peer, link, k, last)
    decreases k
  {
    hide Deliver, Predicted, LinkValid;
    PredictedStep(signed, v, peer, content, done, link);
    if k == 0 {
      last := link;
    } else {
      last := ExchangeGoesOn(signed, v, peer, content, done + 1, Deliver(signed, v, peer, link), k - 1);
    }
  }

  /** The exchange reaches an end where both sides have finished. */
  ghost predicate Finishes(signed: bool, v: Transport, peer: Endpoint, link: Link) {
    exists k, last :: Exchange(signed, v, peer, link, k, last) &&
                      last.session == Released(true) && last.client.status == Finished
  }

  /** Both sides finish if and only if the file is shorter than MaxBlock blocks of 512
      bytes: 65535 * 512, or 127 * 512 with a signed `char`. */
  lemma FinishesBelowTheBound(signed: bool, v: Transport, peer: Endpoint, content: seq<byte>, link: Link)
    requires Opening(link, content, peer) && SocketReady(v)
    ensures Finishes(signed, v, peer, link) <==> |content| < MaxBlock(signed) * BLOCK_SIZE
  {
    assert Predicted(signed, peer, content, 0, link);
    assert LastBlock(content) <= MaxBlock(signed) <==> |content| < MaxBlock(signed) * BLOCK_SIZE;
    if LastBlock(content) <= MaxBlock(signed) {
      var k := 2 * LastBlock(content);
      var last := ExchangeGoesOn(signed, v, peer, content, 0, link, k);
      ExchangeIsPredicted(signed, v, peer, content, 0, link, k, last);
    } else {
      forall k, last | Exchange(signed, v, peer, link, k, last)
        ensures last.session != Released(true)
      {
        ExchangeIsPredicted(signed, v, peer, content, 0, link, k, last);
      }
    }
  }

  /** Below the bound, after 2 * (len / 512 + 1) deliveries everything is over: the client has the
      file, and len / 512 + 1 DATA and as many ACK datagrams were sent. */
  lemma BelowTheBoundItCompletes(
      signed: bool, v: Transport, peer: Endpoint, content: seq<byte>, link: Link, k: nat, last: Link)
    requires Opening(link, content, peer) && SocketReady(v)
    requires |content| < MaxBlock(signed) * BLOCK_SIZE
    requires k >= 2 * (|content| / BLOCK_SIZE + 1) && Exchange(signed, v, peer, link, k, last)
    ensures BothDone(last, content)
    ensures |last.dataSent| == |last.acksSent| == |content| / BLOCK_SIZE + 1
  {
    assert Predicted(signed, peer, content, 0, link);
    ExchangeIsPredicted(signed, v, peer, content, 0, link, k, last);
  }

  /** At or above it, both sides wait for ever with nothing in flight. */
  lemma AboveTheBoundItStalls(
      signed: bool, v: Transport, peer: Endpoint, content: seq<byte>, link: Link, k: nat, last: Link)
    requires Opening(link, content, peer) && SocketReady(v)
    requires |content| >= MaxBlock(signed) * BLOCK_SIZE
    requires k > 2 * MaxBlock(signed) && Exchange(signed, v, peer, link, k, last)
    ensures BothStuck(last, content, signed)
  {
    assert Predicted(signed, peer, content, 0, link);
    ExchangeIsPredicted(signed, v, peer, content, 0, link, k, last);
  }

  /** Every exchange the theorems speak of begins with a request the server accepts: the new
      transfer, its file and the datagrams it sent are the opening of a download. */
  lemma AcceptedRequestOpens(s: State, data: seq<byte>, source: Endpoint, io: SetupIo)
    requires Owned(s) && FreshSocket(s.core, io.socket)
    requires Serve(s, data, source, io).status == Ok
    ensures var r := Serve(s, data, source, io);
            var c, i := r.state.core, FreeTransfer(s.core.transfers);
            var path := ROOT + ParseRequest(data).filename;
            i < |c.transfers| && path in io.disk &&
            var t := c.transfers[i];
            t.transport.Some? && SocketReady(c.transports[t.transport.value].transport) &&
            Opening(Link(Active(t, FileOf(c, t)), STARTED, r.sent, [], r.sent, []), io.disk[path], source)
  {
    hide Serve, ParseRequest, DataDatagram, InStream;
    ServeSends(s, data, source, io);
    AcceptedRequest(s, data, source, io);
    var path := ROOT + ParseRequest(data).filename;
    assert [DataDatagram(io.disk[path], 1)] == DataDatagrams(io.disk[path], 1);
  }
}
