/**
 The whole system: the server program with everything that can happen to it, one
 downloading client, and a network between them that may lose, duplicate, delay
 and reorder. The network is two growing sets, of everything the client ever
 sent and of everything the server ever sent to the client; a delivery picks any
 member. Other endpoints may send the server anything at any time.
*/
module Protocol {
  import opened Wire
  import opened Packet
  import opened PacketLaws
  import opened Transports
  import opened Files
  import opened Reactors
  import opened Transfers
  import opened Servers
  import opened Ownership
  import opened Requests
  import opened Runs
  import opened SenderStream
  import opened LegacyClient
  import opened LegacyLaws
  import opened LockStep

  /** One download: who asks, for which name, and what that file holds throughout. */
  datatype Scenario = Scenario(client: Endpoint, filename: seq<byte>, content: seq<byte>, signed: bool)

  ghost predicate ScenarioValid(sc: Scenario) {
    0 !in sc.filename && 2 + |sc.filename| + 1 + |OCTET| + 1 <= BUFFER_SIZE
  }

  datatype Net = Net(server: State, client: Client, toServer: set<seq<byte>>, toClient: set<seq<byte>>)

  datatype NetEvent =
    | AtServer(event: Event)
    | AtClient(input: Option<seq<byte>>)

  // ---------- what can happen ----------

  /** A datagram that comes from the client is one the client sent. */
  ghost predicate Authentic(sc: Scenario, net: Net, recv: RecvIo) {
    recv.RecvOk? && recv.source == sc.client ==> recv.datagram in net.toServer
  }

  /** If the requested file can be opened, it has the scenario's content. */
  ghost predicate DiskAgrees(sc: Scenario, disk: map<seq<byte>, seq<byte>>) {
    ROOT + sc.filename in disk ==> disk[ROOT + sc.filename] == sc.content
  }

  ghost predicate NetPossible(sc: Scenario, net: Net, e: NetEvent) {
    match e
    case AtServer(event) =>
      && WellFormedState(net.server) && Possible(net.server, event)
      && (match event
          case ServerNotified(_, _, recv, setup) =>
            Authentic(sc, net, recv) && DiskAgrees(sc, setup.disk)
          case TransferNotified(_, notice) => Authentic(sc, net, notice.recv)
          case _ => true)
    case AtClient(input) =>
      input.Some? ==> input.value in net.toClient && |input.value| >= 4
  }

  /** The datagrams a server event sends to `who`. */
  function SentTo(s: State, e: Event, who: Endpoint): seq<seq<byte>>
    requires WellFormedState(s) && Possible(s, e)
  {
    match e
    case ServerNotified(fd, events, recv, setup) =>
      if recv.RecvOk? && recv.source == who then ServerReady(s, fd, events, recv, setup).sent else []
    case TransferNotified(slot, notice) =>
      if s.core.transfers[slot].peer == who then TransferReady(s.core, slot, notice).sent else []
    case _ => []
  }

  function AsSet(datagrams: seq<seq<byte>>): set<seq<byte>> {
    set d | d in datagrams
  }

  function NetStep(sc: Scenario, net: Net, e: NetEvent): Net
    requires NetPossible(sc, net, e)
  {
    match e
    case AtServer(event) =>
      net.(server := Step(net.server, event),
           toClient := net.toClient + AsSet(SentTo(net.server, event, sc.client)))
    case AtClient(input) =>
      var (client, acks) := OnReceive(sc.signed, net.client, input);
      net.(client := client, toServer := net.toServer + AsSet(acks))
  }

  /** The client has sent its request, and the server program has just been initialised. */
  ghost predicate NetInitial(sc: Scenario, net: Net) {
    && ScenarioValid(sc) && Initial(net.server)
    && net.client == STARTED
    && net.toServer == {RequestDatagram(1, sc.filename)} && net.toClient == {}
  }

  /** A run: the states it passes through, one more than the events between them. */
  ghost predicate NetRun(sc: Scenario, nets: seq<Net>, events: seq<NetEvent>) {
    && |nets| == |events| + 1 && NetInitial(sc, nets[0])
    && forall k {:trigger events[k]} :: 0 <= k < |events| ==>
         NetPossible(sc, nets[k], events[k]) && nets[k + 1] == NetStep(sc, nets[k], events[k])
  }

  // ---------- the invariant ----------

  /** How many blocks the client has accepted. */
  function AcceptedBlocks(c: Client): int {
    if c.status == Finished then c.expected else c.expected - 1
  }

  ghost predicate ClientInv(sc: Scenario, c: Client) {
    var a := AcceptedBlocks(c);
    && 0 <= a <= MaxBlock(sc.signed) && a <= LastBlock(sc.content)
    && c.written == sc.content[..Offset(sc.content, a)]
    && (c.status == Finished <==> a == LastBlock(sc.content))
  }

  /** A block the client has accepted or is about to. */
  ghost predicate IsBlock(sc: Scenario, d: seq<byte>, n: nat) {
    1 <= n <= LastBlock(sc.content) && d == DataDatagram(sc.content, n)
  }

  ghost predicate ToClientOk(sc: Scenario, d: seq<byte>, accepted: nat) {
    d == NOT_FOUND || exists n: nat :: IsBlock(sc, d, n) && n <= accepted + 1
  }

  ghost predicate IsAckOf(d: seq<byte>, n: nat) {
    1 <= n <= 65535 && d == EncodeAck(n % 65536)
  }

  ghost predicate ToServerOk(sc: Scenario, d: seq<byte>, accepted: nat) {
    d == RequestDatagram(1, sc.filename) || exists n: nat :: IsAckOf(d, n) && n <= accepted
  }

  /** A transfer to the client is at most one block ahead of it. */
  ghost predicate TransferOk(sc: Scenario, c: Core, i: nat, accepted: nat)
    requires WellFormed(c) && i < |c.transfers|
  {
    var t := c.transfers[i];
    t.inUse && t.peer == sc.client && t.state == WaitAck ==>
      exists n: nat :: InStream(t, FileOf(c, t), sc.content, n) && n <= accepted + 1
  }

  ghost predicate NetInv(sc: Scenario, net: Net) {
    && ScenarioValid(sc)
    && Owned(net.server)
    && ClientInv(sc, net.client)
    && var a := AcceptedBlocks(net.client);
    && (forall d :: d in net.toClient ==> ToClientOk(sc, d, a))
    && (forall d :: d in net.toServer ==> ToServerOk(sc, d, a))
    && (forall i :: 0 <= i < |net.server.core.transfers| ==> TransferOk(sc, net.server.core, i, a))
  }

  // ---------- the client's steps ----------

  lemma NotFoundIsAnError(signed: bool)
    ensures |NOT_FOUND| >= 4 && CharValue(signed, NOT_FOUND[1]) == 5
  {
  }

  /** The client takes exactly the next block, appends it, and acknowledges it: a duplicate or
      late block is neither written nor acknowledged, and no datagram brings it more than one block. */
  lemma ClientStep(sc: Scenario, c: Client, d: seq<byte>)
    requires ClientInv(sc, c) && |d| >= 4
    requires ToClientOk(sc, d, AcceptedBlocks(c))
    ensures var (c', acks) := OnDatagram(sc.signed, c, d);
            var a, a' := AcceptedBlocks(c), AcceptedBlocks(c');
            ClientInv(sc, c') &&
            if a' == a then acks == [] && c'.written == c.written
            else
              a' == a + 1 && IsBlock(sc, d, a') && IsAckOf(acks[0], a') && |acks| == 1 &&
              c'.written == c.written + Chunk(sc.content, a')
    ensures forall n: nat :: n <= AcceptedBlocks(c) && IsBlock(sc, d, n) ==> OnDatagram(sc.signed, c, d) == (c, [])
  {
    hide DataDatagram, Chunk, Offset, NOT_FOUND, EncodeAck, DecodeBlock, AckDatagram;
    NotFoundIsAnError(sc.signed);
    var a := AcceptedBlocks(c);
    if c.status == Receiving && d != NOT_FOUND {
      var n: nat :| IsBlock(sc, d, n) && n <= a + 1;
      BlockStep(sc, c, d, n);
    }
    forall n: nat | n <= a && IsBlock(sc, d, n) ensures OnDatagram(sc.signed, c, d) == (c, []) {
      if c.status == Receiving {
        BlockStep(sc, c, d, n);
      }
    }
  }

  /** What a receiving client does with a block of the file. */
  lemma BlockStep(sc: Scenario, c: Client, d: seq<byte>, n: nat)
    requires ClientInv(sc, c) && c.status == Receiving && |d| >= 4
    requires IsBlock(sc, d, n) && n <= AcceptedBlocks(c) + 1
    ensures var a := AcceptedBlocks(c);
            OnDatagram(sc.signed, c, d) ==
            if n == a + 1 <= MaxBlock(sc.signed) then
              (if n == LastBlock(sc.content) then Client(Finished, n, sc.content)
               else Client(Receiving, n + 1, sc.content[..Offset(sc.content, n)]),
               [EncodeAck(n % 65536)])
            else (c, [])
    ensures n == AcceptedBlocks(c) + 1 ==> sc.content[..Offset(sc.content, n)] == c.written + Chunk(sc.content, n)
    ensures n == LastBlock(sc.content) ==> sc.content[..Offset(sc.content, n)] == sc.content
  {
    hide DataDatagram, Chunk, Offset, EncodeAck, AckDatagram, DecodeBlock;
    OnlyTheLastBlockIsShort(sc.content, n);
    NextChunkExtendsThePrefix(sc.content, n);
    if n == AcceptedBlocks(c) + 1 <= MaxBlock(sc.signed) {
      ClientTakesBlock(sc.signed, c, sc.content, n);
    } else {
      DataDatagramFields(sc.content, n);
      NotExpected(sc.signed, n, c.expected);
    }
  }

  /** A number below the one expected, or one beyond those the client can decode, never matches. */
  lemma NotExpected(signed: bool, n: nat, expected: nat)
    requires 1 <= n <= expected <= MaxBlock(signed) + 1 && (n < expected || n == MaxBlock(signed) + 1)
    ensures DecodeBlock(signed, n % 65536 / 256, n % 65536 % 256) != expected
  {
    DecodingNeverConfuses(signed, n % 65536);
  }

  lemma ClientKeepsInv(sc: Scenario, net: Net, input: Option<seq<byte>>)
    requires NetInv(sc, net) && NetPossible(sc, net, AtClient(input))
    ensures NetInv(sc, NetStep(sc, net, AtClient(input)))
  {
    hide Owned, InStream, DataDatagram, EncodeAck, NOT_FOUND, OnDatagram, RequestDatagram, Offset, Chunk, LastBlock;
    OwnedIsWellFormed(net.server);
    var net' := NetStep(sc, net, AtClient(input));
    if input.Some? {
      ClientStep(sc, net.client, input.value);
    }
    var a, a' := AcceptedBlocks(net.client), AcceptedBlocks(net'.client);
    forall d | d in net'.toClient ensures ToClientOk(sc, d, a') {
      assert ToClientOk(sc, d, a);
    }
    forall d | d in net'.toServer ensures ToServerOk(sc, d, a') {
      if d in net.toServer {
        assert ToServerOk(sc, d, a);
      } else {
        assert IsAckOf(d, a');
      }
    }
    forall i | 0 <= i < |net'.server.core.transfers| ensures TransferOk(sc, net'.server.core, i, a') {
      assert TransferOk(sc, net.server.core, i, a);
    }
  }

  // ---------- the server's steps ----------

  /** The only request the client ever sends is its own. */
  lemma ClientRequestsItsFile(sc: Scenario, d: seq<byte>, accepted: nat)
    requires ScenarioValid(sc) && ToServerOk(sc, d, accepted)
    ensures var data := d[..Min(|d|, RX_BUFFER_SIZE)];
            ParseRequest(data).Request? ==> ParseRequest(data).filename == sc.filename
  {
  }

  /** Another transfer's file is untouched when one transfer is set up in free objects. */
  lemma SetupSparesOthers(s: State, c: Core, i: nat, j: nat)
    requires Owned(s) && Leased(s.core, c, i) && j < |s.core.transfers| && j != i
    ensures c.transfers[j] == s.core.transfers[j]
    ensures FileOf(c, c.transfers[j]) == FileOf(s.core, s.core.transfers[j])
  {
  }

  /** Serving a request changes no transfer in use and no such transfer's file; a refused
      request changes no transfer at all. */
  lemma ServeSparesOthers(s: State, data: seq<byte>, source: Endpoint, setup: SetupIo)
    requires Owned(s) && FreshSocket(s.core, setup.socket)
    ensures var r := Serve(s, data, source, setup);
            var c, c' := s.core, r.state.core;
            |c'.transfers| == |c.transfers| &&
            (r.status == Ok ==>
               FreeTransfer(c.transfers) < |c.transfers| && !c.transfers[FreeTransfer(c.transfers)].inUse) &&
            forall j :: 0 <= j < |c.transfers| && (r.status == Ok ==> j != FreeTransfer(c.transfers)) ==>
              c'.transfers[j] == c.transfers[j] && FileOf(c', c'.transfers[j]) == FileOf(c, c.transfers[j])
  {
    hide Serve, ParseRequest, Settled, TransportsOwned, TableOwned;
    var r := Serve(s, data, source, setup);
    if r.status != Ok {
      FailedRequestsLeaveNoTrace(s, data, source, setup);
    } else {
      AcceptedRequest(s, data, source, setup);
      var i := FreeTransfer(s.core.transfers);
      forall j | 0 <= j < |s.core.transfers| && j != i
        ensures r.state.core.transfers[j] == s.core.transfers[j]
        ensures FileOf(r.state.core, r.state.core.transfers[j]) == FileOf(s.core, s.core.transfers[j])
      {
        SetupSparesOthers(s, r.state.core, i, j);
      }
    }
  }

  /** Serving any request leaves the transfers in use and their files alone, and starts the
      client's own transfer at block 1 of its file. */
  lemma ServeKeepsTransfers(sc: Scenario, net: Net, data: seq<byte>, recv: RecvIo, setup: SetupIo)
    requires NetInv(sc, net) && recv.RecvOk? && Authentic(sc, net, recv)
    requires data == recv.datagram[..Min(|recv.datagram|, RX_BUFFER_SIZE)]
    requires FreshSocket(net.server.core, setup.socket) && DiskAgrees(sc, setup.disk)
    ensures var r := Serve(net.server, data, recv.source, setup);
            var c, c' := net.server.core, r.state.core;
            |c'.transfers| == |c.transfers| &&
            forall j :: 0 <= j < |c.transfers| && (c.transfers[j].inUse || r.status != Ok) ==>
              c'.transfers[j] == c.transfers[j] && FileOf(c', c'.transfers[j]) == FileOf(c, c.transfers[j])
    ensures var r := Serve(net.server, data, recv.source, setup);
            var i := FreeTransfer(net.server.core.transfers);
            r.status == Ok && recv.source == sc.client ==>
              i < |r.state.core.transfers| && r.state.core.transfers[i].peer == sc.client &&
              InStream(r.state.core.transfers[i], FileOf(r.state.core, r.state.core.transfers[i]), sc.content, 1)
    ensures var r := Serve(net.server, data, recv.source, setup);
            var a := AcceptedBlocks(net.client);
            (forall j :: 0 <= j < |r.state.core.transfers| ==> TransferOk(sc, r.state.core, j, a)) &&
            (recv.source == sc.client ==> forall d :: d in r.sent ==> ToClientOk(sc, d, a))
  {
    hide Serve, DataDatagram, NOT_FOUND, ParseRequest, TransportsOwned, TableOwned, InStream, FreeTransfer, ClientInv;
    var s := net.server;
    var a := AcceptedBlocks(net.client);
    var r := Serve(s, data, recv.source, setup);
    AcceptedBlocksAreCounted(sc, net.client);
    OwnedIsWellFormed(s);
    ServeSparesOthers(s, data, recv.source, setup);
    ServeSends(s, data, recv.source, setup);
    if recv.source == sc.client {
      ClientRequestsItsFile(sc, recv.datagram, a);
      if r.status == Ok {
        AcceptedRequest(s, data, recv.source, setup);
        FirstBlockIsOk(sc, a);
      }
    }
    forall j | 0 <= j < |s.core.transfers| ensures TransferOk(sc, r.state.core, j, a) {
      assert TransferOk(sc, s.core, j, a);
    }
  }

  lemma AcceptedBlocksAreCounted(sc: Scenario, c: Client)
    requires ClientInv(sc, c)
    ensures AcceptedBlocks(c) >= 0
  {
  }

  lemma FirstBlockIsOk(sc: Scenario, accepted: nat)
    ensures ToClientOk(sc, DataDatagram(sc.content, 1), accepted)
  {
    assert IsBlock(sc, DataDatagram(sc.content, 1), 1);
  }

  /** An acknowledgement the client sent lets the sender pass only blocks the client has. */
  lemma AckIsHonest(sc: Scenario, net: Net, notice: Notice, n: nat)
    requires NetInv(sc, net) && notice.recv.RecvOk? && notice.recv.datagram in net.toServer
    requires 1 <= n <= AcceptedBlocks(net.client) + 1 && Acknowledges(notice, n)
    ensures n <= AcceptedBlocks(net.client)
  {
    hide Owned, EncodeAck, InStream, DataDatagram, NOT_FOUND, ToClientOk, TransferOk;
    var d := notice.recv.datagram;
    var a := AcceptedBlocks(net.client);
    assert ToServerOk(sc, d, a);
    if d != RequestDatagram(1, sc.filename) {
      var m: nat :| IsAckOf(d, m) && m <= a;
      hide RequestDatagram;
      AckDatagramIsAck(m);
      assert |d| == 4 && Delivered(notice) == d;
      AckIsInjective(m % 65536, n % 65536);
    } else {
      assert |d| <= MAX_PACKET_SIZE && Delivered(notice) == d;
      AckIsNoRequest(sc, d, n);
    }
  }

  lemma AckIsNoRequest(sc: Scenario, d: seq<byte>, n: nat)
    requires d == RequestDatagram(1, sc.filename)
    ensures d != EncodeAck(n % 65536)
  {
    assert RequestDatagram(1, sc.filename)[1] == 1 && EncodeAck(n % 65536)[1] == 4;
  }

  /** What a handler run does to the client's own transfer. */
  lemma OwnTransferStep(sc: Scenario, net: Net, slot: nat, notice: Notice)
    requires NetInv(sc, net) && slot < |net.server.core.transfers| && Authentic(sc, net, notice.recv)
    requires net.server.core.transfers[slot].inUse && net.server.core.transfers[slot].peer == sc.client
    ensures var t := net.server.core.transfers[slot];
            var a := AcceptedBlocks(net.client);
            t.transport.Some? &&
            var v := net.server.core.transports[t.transport.value].transport;
            var (session, sent) := Notified(Active(t, FileOf(net.server.core, t)), v, notice);
            (forall d :: d in sent ==> ToClientOk(sc, d, a)) &&
            (session == Released(true) ==> net.client.status == Finished && net.client.written == sc.content) &&
            (session.Active? && session.transfer.state == WaitAck ==>
               exists n: nat :: InStream(session.transfer, session.file, sc.content, n) && n <= a + 1)
  {
    hide Notified, DataDatagram, NOT_FOUND;
    var c := net.server.core;
    var t := c.transfers[slot];
    var f := FileOf(c, t);
    assert Held(net.server, TransferCallback(slot)) == t.transport;
    var v := c.transports[t.transport.value].transport;
    var a := AcceptedBlocks(net.client);
    assert TransferOk(sc, c, slot, a);
    if !FromPeer(t, v, notice) {
      OtherNoticeStep(t, f, v, notice);
    } else if t.state == Failed {
      FailedStep(t, f, v, notice);
    } else {
      var n: nat :| InStream(t, f, sc.content, n) && n <= a + 1;
      PeerDatagramStep(t, f, v, notice, sc.content, n);
      if Acknowledges(notice, n) {
        AckIsHonest(sc, net, notice, n);
        if n < LastBlock(sc.content) {
          assert IsBlock(sc, DataDatagram(sc.content, n + 1), n + 1);
        } else {
          OnlyTheLastBlockIsShort(sc.content, n);
        }
      }
    }
  }

  /** A handler run on one transfer leaves the others and their files alone. */
  lemma HandlerSparesOthers(s: State, slot: nat, notice: Notice, j: nat)
    requires Owned(s) && slot < |s.core.transfers| && j < |s.core.transfers| && j != slot
    ensures var c := TransferReady(s.core, slot, notice).core;
            c.transfers[j] == s.core.transfers[j] &&
            FileOf(c, c.transfers[j]) == FileOf(s.core, s.core.transfers[j])
  {
  }

  lemma HandlerKeepsOwnTransfer(sc: Scenario, net: Net, slot: nat, notice: Notice)
    requires NetInv(sc, net) && slot < |net.server.core.transfers| && Authentic(sc, net, notice.recv)
    requires net.server.core.transfers[slot].inUse
    ensures var r := TransferReady(net.server.core, slot, notice);
            var a := AcceptedBlocks(net.client);
            TransferOk(sc, r.core, slot, a) &&
            (net.server.core.transfers[slot].peer == sc.client ==> forall d :: d in r.sent ==> ToClientOk(sc, d, a))
  {
    hide OnReady, DataDatagram, NOT_FOUND, InStream, Unregistered, FileClosed, ToClientOk;
    var c := net.server.core;
    var t := c.transfers[slot];
    assert Settled(t);
    var r := TransferReady(c, slot, notice);
    var h := OnReady(t, FileOf(c, t), c.transports[t.transport.value].transport, notice);
    assert r.sent == h.sent;
    if !h.release {
      assert r.core.transfers[slot] == h.transfer && FileOf(r.core, h.transfer) == h.file;
    }
    if t.peer == sc.client {
      OwnTransferStep(sc, net, slot, notice);
    }
  }

  lemma HandlerKeepsTransfers(sc: Scenario, net: Net, slot: nat, notice: Notice)
    requires NetInv(sc, net) && slot < |net.server.core.transfers| && Authentic(sc, net, notice.recv)
    ensures var r := TransferReady(net.server.core, slot, notice);
            var a := AcceptedBlocks(net.client);
            (forall j :: 0 <= j < |r.core.transfers| ==> TransferOk(sc, r.core, j, a)) &&
            (net.server.core.transfers[slot].peer == sc.client ==> forall d :: d in r.sent ==> ToClientOk(sc, d, a))
  {
    hide OnReady, InStream, Unregistered, FileClosed, ToClientOk;
    var c := net.server.core;
    var a := AcceptedBlocks(net.client);
    var r := TransferReady(c, slot, notice);
    assert Settled(c.transfers[slot]);
    if c.transfers[slot].inUse {
      HandlerKeepsOwnTransfer(sc, net, slot, notice);
    }
    forall j | 0 <= j < |c.transfers| && j != slot ensures TransferOk(sc, r.core, j, a) {
      assert TransferOk(sc, c, j, a);
      HandlerSparesOthers(net.server, slot, notice, j);
    }
  }

  lemma ServerKeepsInv(sc: Scenario, net: Net, e: Event)
    requires NetInv(sc, net) && NetPossible(sc, net, AtServer(e))
    ensures NetInv(sc, NetStep(sc, net, AtServer(e)))
  {
    hide Serve, TransferReady, InStream, DataDatagram, NOT_FOUND, OnReady, Owned;
    var net' := NetStep(sc, net, AtServer(e));
    var s, s' := net.server, net'.server;
    var a := AcceptedBlocks(net.client);
    StepKeepsOwned(s, e);
    OwnedIsWellFormed(s);
    OwnedIsWellFormed(s');
    match e {
      case ServerStarts(_, _) =>
        forall j | 0 <= j < |s.core.transfers| ensures TransferOk(sc, s'.core, j, a) {
          assert TransferOk(sc, s.core, j, a);
          assert FileOf(s'.core, s.core.transfers[j]) == FileOf(s.core, s.core.transfers[j]);
        }
      case ServerStops =>
        forall j | 0 <= j < |s.core.transfers| ensures TransferOk(sc, s'.core, j, a) {
          assert TransferOk(sc, s.core, j, a);
          assert FileOf(s'.core, s.core.transfers[j]) == FileOf(s.core, s.core.transfers[j]);
        }
      case ServerNotified(fd, events, recv, setup) =>
        if s' != s || SentTo(s, e, sc.client) != [] {
          var data := Received(s.core.transports[s.server.transport.value].transport, RX_BUFFER_SIZE, recv).1;
          ServeKeepsTransfers(sc, net, data, recv, setup);
        }
      case TransferNotified(slot, notice) =>
        HandlerKeepsTransfers(sc, net, slot, notice);
    }
  }

  // ---------- every run ----------

  lemma InitialNetInv(sc: Scenario, net: Net)
    requires NetInitial(sc, net)
    ensures NetInv(sc, net)
  {
  }

  lemma NetStepKeepsInv(sc: Scenario, net: Net, e: NetEvent)
    requires NetInv(sc, net) && NetPossible(sc, net, e)
    ensures NetInv(sc, NetStep(sc, net, e))
  {
    match e {
      case AtServer(event) => ServerKeepsInv(sc, net, event);
      case AtClient(input) => ClientKeepsInv(sc, net, input);
    }
  }

  lemma {:induction false} InvAtEveryPoint(sc: Scenario, nets: seq<Net>, events: seq<NetEvent>, k: nat)
    requires NetRun(sc, nets, events) && k < |nets|
    ensures NetInv(sc, nets[k])
  {
    hide NetInv, NetStep, NetPossible, NetInitial;
    if k == 0 {
      InitialNetInv(sc, nets[0]);
    } else {
      InvAtEveryPoint(sc, nets, events, k - 1);
      var e := events[k - 1];
      NetStepKeepsInv(sc, nets[k - 1], e);
    }
  }

  /** At every point of every run, whatever the network, the other endpoints and the system
      do, the client's output is a prefix of the file; if its loop ended on a short block, it
      is the file. */
  lemma OutputIsAlwaysAPrefix(sc: Scenario, nets: seq<Net>, events: seq<NetEvent>)
    requires NetRun(sc, nets, events)
    ensures forall k :: 0 <= k < |nets| ==>
              nets[k].client.written <= sc.content &&
              (nets[k].client.status == Finished ==> nets[k].client.written == sc.content)
  {
    hide NetRun;
    OnlyTheLastBlockIsShort(sc.content, LastBlock(sc.content));
    forall k | 0 <= k < |nets|
      ensures nets[k].client.written <= sc.content
      ensures nets[k].client.status == Finished ==> nets[k].client.written == sc.content
    {
      InvAtEveryPoint(sc, nets, events, k);
    }
  }

  /** Every datagram the server sends the client has the four header bytes the client reads. */
  lemma ClientDatagramsHaveHeaders(sc: Scenario, nets: seq<Net>, events: seq<NetEvent>, k: nat, d: seq<byte>)
    requires NetRun(sc, nets, events) && k < |nets| && d in nets[k].toClient
    ensures |d| >= HEADER_SIZE
  {
    hide NetRun;
    InvAtEveryPoint(sc, nets, events, k);
    assert ToClientOk(sc, d, AcceptedBlocks(nets[k].client));
  }

  /** The server event is the handler run that takes the client's transfer to COMPLETE. */
  ghost predicate Completes(sc: Scenario, s: State, e: Event) {
    && e.TransferNotified? && WellFormedState(s) && e.slot < |s.core.transfers|
    && var t := s.core.transfers[e.slot];
    && t.inUse && t.peer == sc.client && t.transport.Some?
    && var r := OnReady(t, FileOf(s.core, t), s.core.transports[t.transport.value].transport, e.notice);
    && r.release && r.transfer.state == Complete
  }

  /** Whenever the sender reaches COMPLETE, the client has already written exactly the whole file. */
  lemma CompletionAgrees(sc: Scenario, nets: seq<Net>, events: seq<NetEvent>, k: nat, e: Event)
    requires NetRun(sc, nets, events) && k < |events| && events[k] == AtServer(e)
    requires Completes(sc, nets[k].server, e)
    ensures nets[k].client.status == Finished && nets[k].client.written == sc.content
  {
    hide NetStep, OnReady;
    InvAtEveryPoint(sc, nets, events, k);
    OwnTransferStep(sc, nets[k], e.slot, e.notice);
  }

  // ---------- how a download ends without its file ----------

  lemma {:induction false} EndedClientStays(sc: Scenario, nets: seq<Net>, events: seq<NetEvent>, k: nat, j: nat)
    requires NetRun(sc, nets, events) && k <= j < |nets| && nets[k].client.status != Receiving
    ensures nets[j].client == nets[k].client && nets[j].toServer == nets[k].toServer
    decreases j
  {
    hide NetInitial, Step, Possible, SentTo, Authentic, DiskAgrees;
    if j == k {
    } else {
      EndedClientStays(sc, nets, events, k, j - 1);
      var net := nets[j - 1];
      if events[j - 1].AtClient? {
        assert OnReceive(sc.signed, net.client, events[j - 1].input) == (net.client, []);
        assert net.toServer + AsSet([]) == net.toServer;
      }
    }
  }

  /** In every run, a receiving client that is given an ERROR packet, the server's "File not found" or
      any other, or whose receive fails, leaves its loop with the output it has; for the rest of the
      run it writes and acknowledges nothing. */
  lemma ErrorEndsTheClient(sc: Scenario, nets: seq<Net>, events: seq<NetEvent>, k: nat, input: Option<seq<byte>>)
    requires NetRun(sc, nets, events) && k < |events| && events[k] == AtClient(input)
    requires nets[k].client.status == Receiving && (input.Some? ==> input.value[1] == 5)
    ensures forall j :: k < j < |nets| ==>
              nets[j].client == nets[k].client.(status := if input.None? then ReceiveError else ServerError) &&
              nets[j].toServer == nets[k].toServer
  {
    hide NetInitial, Step, Possible, SentTo, Authentic, DiskAgrees, OnDatagram;
    if input.Some? {
      DatagramByBytes(sc.signed, nets[k].client, input.value);
    }
    assert nets[k].toServer + AsSet([]) == nets[k].toServer;
    forall j | k < j < |nets|
      ensures nets[j].client == nets[k + 1].client && nets[j].toServer == nets[k + 1].toServer
    {
      EndedClientStays(sc, nets, events, k + 1, j);
    }
  }

  /** The error the server sends is such a packet. */
  lemma NotFoundEndsTheClient(signed: bool, c: Client)
    requires c.status == Receiving
    ensures OnDatagram(signed, c, ErrorDatagram()) == (c.(status := ServerError), [])
    ensures NOT_FOUND == ErrorDatagram()
  {
    DatagramByBytes(signed, c, ErrorDatagram());
  }
}
