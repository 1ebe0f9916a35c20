/**
 Which downloads can complete at all. Over every run of the whole system, whatever
 the network does, one completes if and only if the file is shorter than the
 blocks the client can count; and below that bound the loss-free exchange, started
 from any initial state, is such a run.
*/
module Completion {
  import opened Wire
  import opened Packet
  import opened Transports
  import opened Files
  import opened Reactors
  import opened Transfers
  import opened Servers
  import opened Ownership
  import opened Requests
  import opened Runs
  import opened EventLoop
  import opened Pairing
  import opened Sessions
  import opened SenderStream
  import opened LegacyClient
  import opened LegacyLaws
  import opened SenderEquivalence
  import opened LockStep
  import opened Protocol

  // ---------- pieces of runs ----------

  /** A run from any point on. */
  ghost predicate NetSteps(sc: Scenario, nets: seq<Net>, events: seq<NetEvent>) {
    && |nets| == |events| + 1
    && forall k {:trigger events[k]} :: 0 <= k < |events| ==>
         NetPossible(sc, nets[k], events[k]) && nets[k + 1] == NetStep(sc, nets[k], events[k])
  }

  lemma NetStepsExtend(sc: Scenario, net: Net, e: NetEvent, nets: seq<Net>, events: seq<NetEvent>)
    requires NetPossible(sc, net, e) && NetSteps(sc, nets, events) && nets[0] == NetStep(sc, net, e)
    ensures NetSteps(sc, [net] + nets, [e] + events)
  {
    hide NetPossible, NetStep;
    var nets', events' := [net] + nets, [e] + events;
    forall k | 0 <= k < |events'|
      ensures NetPossible(sc, nets'[k], events'[k]) && nets'[k + 1] == NetStep(sc, nets'[k], events'[k])
    {
      if k > 0 {
        assert events'[k] == events[k - 1];
      }
    }
  }

  /** The last event of these steps takes the client's transfer to COMPLETE. */
  ghost predicate EndsComplete(sc: Scenario, nets: seq<Net>, events: seq<NetEvent>) {
    && |nets| == |events| + 1 && events != []
    && events[|events| - 1].AtServer? && Completes(sc, nets[|events| - 1].server, events[|events| - 1].event)
  }

  lemma EndsCompleteExtends(sc: Scenario, net: Net, e: NetEvent, nets: seq<Net>, events: seq<NetEvent>)
    requires EndsComplete(sc, nets, events)
    ensures EndsComplete(sc, [net] + nets, [e] + events)
  {
    hide Completes;
    assert ([e] + events)[|events|] == events[|events| - 1];
    assert ([net] + nets)[|events|] == nets[|events| - 1];
  }

  // ---------- one round: a block and its acknowledgement ----------

  /** The client's transfer has sent block `n`, and the client awaits it. */
  ghost predicate Midway(sc: Scenario, net: Net, slot: nat, n: nat) {
    && NetInv(sc, net)
    && InUseAt(net.server, slot) && net.server.core.transfers[slot].peer == sc.client
    && InStream(net.server.core.transfers[slot], FileOf(net.server.core, net.server.core.transfers[slot]), sc.content, n)
    && net.client == Client(Receiving, n, sc.content[..Offset(sc.content, n - 1)])
    && DataDatagram(sc.content, n) in net.toClient
  }

  /** Block `n` is written, and its acknowledgement is on its way. */
  ghost predicate Acknowledging(sc: Scenario, net: Net, slot: nat, n: nat) {
    && NetInv(sc, net)
    && InUseAt(net.server, slot) && net.server.core.transfers[slot].peer == sc.client
    && InStream(net.server.core.transfers[slot], FileOf(net.server.core, net.server.core.transfers[slot]), sc.content, n)
    && (n < LastBlock(sc.content) ==> net.client == Client(Receiving, n + 1, sc.content[..Offset(sc.content, n)]))
    && EncodeAck(n % 65536) in net.toServer
  }

  lemma BlockArrives(sc: Scenario, net: Net, slot: nat, n: nat) returns (e: NetEvent)
    requires Midway(sc, net, slot, n) && n <= MaxBlock(sc.signed)
    ensures NetPossible(sc, net, e) && Acknowledging(sc, NetStep(sc, net, e), slot, n)
  {
    hide NetInv, InStream, DataDatagram, EncodeAck, OnDatagram, Offset, MaxBlock, LastBlock;
    StreamIsInRange(net.server.core.transfers[slot], FileOf(net.server.core, net.server.core.transfers[slot]), sc.content, n);
    e := AtClient(Some(DataDatagram(sc.content, n)));
    ClientTakesBlock(sc.signed, net.client, sc.content, n);
    NetStepKeepsInv(sc, net, e);
    assert EncodeAck(n % 65536) in AsSet([EncodeAck(n % 65536)]);
  }

  lemma StreamIsInRange(t: Transfer, f: File, content: seq<byte>, n: nat)
    requires InStream(t, f, content, n)
    ensures 1 <= n <= LastBlock(content)
  {
  }

  lemma AckArrives(sc: Scenario, net: Net, slot: nat, n: nat) returns (e: NetEvent)
    requires Acknowledging(sc, net, slot, n)
    ensures NetPossible(sc, net, e) && e.AtServer?
    ensures if n == LastBlock(sc.content) then Completes(sc, net.server, e.event)
            else Midway(sc, NetStep(sc, net, e), slot, n + 1)
  {
    hide ClientInv, InStream, DataDatagram, EncodeAck, Offset, LastBlock, Owned, TransferReady, Notified;
    var s := net.server;
    var t, f, v := s.core.transfers[slot], FileOf(s.core, s.core.transfers[slot]), SocketAt(s, slot);
    var notice := AckNotice(v, sc.client, n % 65536);
    e := AtServer(TransferNotified(slot, notice));
    StreamIsInRange(t, f, sc.content, n);
    HandlerRunsItsSession(s, slot, notice);
    AckNoticeAcknowledges(v, sc.client, n % 65536, n);
    NoticeIsFromPeer(t, v, n % 65536);
    PeerDatagramStep(t, f, v, notice, sc.content, n);
    if n == LastBlock(sc.content) {
      CompletionIsReported(t, f, v, notice);
    } else {
      NetStepKeepsInv(sc, net, e);
      var net' := NetStep(sc, net, e);
      assert SentTo(s, e.event, sc.client) == [DataDatagram(sc.content, n + 1)];
      assert DataDatagram(sc.content, n + 1) in AsSet([DataDatagram(sc.content, n + 1)]);
    }
  }

  lemma NoticeIsFromPeer(t: Transfer, v: Transport, block: uint16)
    requires SocketReady(v)
    ensures FromPeer(t, v, AckNotice(v, t.peer, block))
  {
  }

  lemma CompletionIsReported(t: Transfer, f: File, v: Transport, notice: Notice)
    requires f.Valid() && Notified(Active(t, f), v, notice).0 == Released(true)
    ensures OnReady(t, f, v, notice).release && OnReady(t, f, v, notice).transfer.state == Complete
  {
    hide OnReady;
  }

  /** From block `n` on, a block and its acknowledgement at a time, to the end. */
  lemma {:induction false} RoundsComplete(sc: Scenario, net: Net, slot: nat, n: nat)
    returns (nets: seq<Net>, events: seq<NetEvent>)
    requires Midway(sc, net, slot, n) && LastBlock(sc.content) <= MaxBlock(sc.signed)
    requires 1 <= n <= LastBlock(sc.content)
    ensures NetSteps(sc, nets, events) && nets[0] == net && EndsComplete(sc, nets, events)
    ensures |events| == 2 * (LastBlock(sc.content) - n + 1)
    decreases LastBlock(sc.content) - n
  {
    hide Midway, Acknowledging, NetPossible, NetStep, Completes, LastBlock, MaxBlock;
    var block := BlockArrives(sc, net, slot, n);
    var net1 := NetStep(sc, net, block);
    var ack := AckArrives(sc, net1, slot, n);
    var net2 := NetStep(sc, net1, ack);
    var later, laterEvents := [net2], [];
    if n < LastBlock(sc.content) {
      later, laterEvents := RoundsComplete(sc, net2, slot, n + 1);
    }
    NetStepsExtend(sc, net1, ack, later, laterEvents);
    NetStepsExtend(sc, net, block, [net1] + later, [ack] + laterEvents);
    if n < LastBlock(sc.content) {
      EndsCompleteExtends(sc, net1, ack, later, laterEvents);
    }
    EndsCompleteExtends(sc, net, block, [net1] + later, [ack] + laterEvents);
    nets, events := [net] + ([net1] + later), [block] + ([ack] + laterEvents);
  }

  // ---------- the opening ----------

  /** The server has room for a transfer, and would serve the client's request. */
  ghost predicate Servable(sc: Scenario, s: State) {
    && |s.core.transfers| > 0 && s.core.table.maxHandlers >= 2
    && SafeName(sc.filename) && |sc.filename| <= Min(255, s.core.maxFilename)
  }

  /** The client's request, arriving at a server that can open the file. */
  function RequestEvent(sc: Scenario, listener: nat, fd: nat): Event {
    ServerNotified(listener, READABLE, RecvOk(RequestDatagram(1, sc.filename), sc.client),
                   SetupIo(SocketOpens(fd, true), map[ROOT + sc.filename := sc.content], SendOk, NextIo(ReadOk, SendOk)))
  }

  lemma RequestIsAccepted(sc: Scenario, s: State, listener: nat, fd: nat)
    requires Owned(s) && s.server.running && NoTransfers(s) && Servable(sc, s) && ScenarioValid(sc)
    requires listener == FdOf(s.core.transports[s.server.transport.value].transport)
    requires FreshSocket(s.core, SocketOpens(fd, true))
    ensures Possible(s, RequestEvent(sc, listener, fd)) && AcceptsRequest(s, RequestEvent(sc, listener, fd))
    ensures RequestOf(RequestEvent(sc, listener, fd)) == RequestDatagram(1, sc.filename)
    ensures ParseRequest(RequestDatagram(1, sc.filename)) == Request(1, sc.filename)
  {
    hide ParseRequest, Serve, NoTransfers, SafeName, DataDatagram, InStream, FilesOwned, FreeTransfer;
    var e := RequestEvent(sc, listener, fd);
    var d := RequestDatagram(1, sc.filename);
    NameIsNotEmpty(sc.filename);
    RequestRoundTrip(1, sc.filename);
    assert d[..Min(|d|, RX_BUFFER_SIZE)] == d;
    assert Held(s, ServerCallback).Some?;
    RunningServerAccepts(s, d, sc.client, e.setup);
    ServeSends(s, d, sc.client, e.setup);
  }

  lemma NameIsNotEmpty(name: seq<byte>)
    requires SafeName(name)
    ensures |name| >= 1
  {
  }

  lemma ProgramIsReady(sc: Scenario, s: State)
    requires Initial(s) && Servable(sc, s)
    ensures CanServe(s)
  {
    NameIsNotEmpty(sc.filename);
  }

  /** The running server's descriptor, and one the system may hand out next. */
  lemma ListenerOf(s: State) returns (listener: nat, fd: nat)
    requires Owned(s) && s.server.running
    ensures s.server.transport.Some? && listener == FdOf(s.core.transports[s.server.transport.value].transport)
    ensures FreshSocket(s.core, SocketOpens(fd, true))
  {
    hide FilesOwned, TableOwned;
    assert Held(s, ServerCallback).Some?;
    listener := FdOf(s.core.transports[s.server.transport.value].transport);
    fd := FreshDescriptor(s.core);
  }

  lemma ServerAloneKeepsServable(sc: Scenario, s: State, s': State)
    requires Servable(sc, s) && s'.core.transfers == s.core.transfers
    requires s'.core.maxFilename == s.core.maxFilename && s'.core.table.maxHandlers == s.core.table.maxHandlers
    ensures Servable(sc, s')
  {
  }

  /** Starting the server sends nothing, and the client still waits for its first block. */
  lemma StartStep(sc: Scenario, net: Net) returns (net': Net, e: NetEvent)
    requires NetInitial(sc, net) && Servable(sc, net.server)
    ensures NetPossible(sc, net, e) && net' == NetStep(sc, net, e) && NetInv(sc, net')
    ensures Sound(net'.server) && net'.server.server.running && NoTransfers(net'.server) && Servable(sc, net'.server)
    ensures net'.client == STARTED && RequestDatagram(1, sc.filename) in net'.toServer
  {
    hide Owned, Step, AtMostOneTransfer, RequestDatagram, Initial, TransferOk, ToClientOk, ToServerOk, ClientInv;
    InitialNetInv(sc, net);
    ProgramIsReady(sc, net.server);
    var s1, event := FirstStart(net.server);
    ServerAloneKeepsServable(sc, net.server, s1);
    e := AtServer(event);
    NetStepKeepsInv(sc, net, e);
    net' := NetStep(sc, net, e);
  }

  /** The request arrives, and the first block is sent. */
  lemma RequestStep(sc: Scenario, net: Net) returns (net': Net, e: NetEvent, slot: nat)
    requires NetInv(sc, net)
    requires net.server.server.running && NoTransfers(net.server) && Servable(sc, net.server)
    requires net.client == STARTED && RequestDatagram(1, sc.filename) in net.toServer
    ensures NetPossible(sc, net, e) && net' == NetStep(sc, net, e) && Midway(sc, net', slot, 1)
  {
    hide Owned, Step, InStream, DataDatagram, AcceptsRequest, FreshSocket, RequestDatagram, ParseRequest, ServerReady;
    hide TransferOk, ToClientOk, ToServerOk, ClientInv, NoTransfers, Servable;
    var s := net.server;
    OwnedIsWellFormed(s);
    var listener, fd := ListenerOf(s);
    RequestIsAccepted(sc, s, listener, fd);
    var asking := RequestEvent(sc, listener, fd);
    e := AtServer(asking);
    assert DiskAgrees(sc, asking.setup.disk);
    NetStepKeepsInv(sc, net, e);
    net' := NetStep(sc, net, e);
    slot := FreeTransfer(s.core.transfers);
    AcceptedSession(s, asking);
    assert sc.content[..Offset(sc.content, 0)] == [];
    assert DataDatagram(sc.content, 1) in AsSet([DataDatagram(sc.content, 1)]);
  }

  // ---------- which downloads complete ----------

  /** Below the bound, a run completes: the start, the request, and the loss-free exchange, block by
      block. It takes 2 * (len / 512 + 1) deliveries after the request. */
  lemma ExchangeIsARun(sc: Scenario, net: Net) returns (nets: seq<Net>, events: seq<NetEvent>)
    requires NetInitial(sc, net) && Servable(sc, net.server) && LastBlock(sc.content) <= MaxBlock(sc.signed)
    ensures NetRun(sc, nets, events) && nets[0] == net && EndsComplete(sc, nets, events)
    ensures |events| == 2 + 2 * LastBlock(sc.content)
  {
    hide NetInv, Midway, NetPossible, NetStep, Completes, MaxBlock, NetInitial, Servable, Sound, NoTransfers;
    var net1, start := StartStep(sc, net);
    var net2, request, slot := RequestStep(sc, net1);
    var later, laterEvents := RoundsComplete(sc, net2, slot, 1);
    NetStepsExtend(sc, net1, request, later, laterEvents);
    NetStepsExtend(sc, net, start, [net1] + later, [request] + laterEvents);
    EndsCompleteExtends(sc, net1, request, later, laterEvents);
    EndsCompleteExtends(sc, net, start, [net1] + later, [request] + laterEvents);
    nets, events := [net] + ([net1] + later), [start] + ([request] + laterEvents);
  }

  /** Some run from `net` takes the client's transfer to COMPLETE. */
  ghost predicate CanComplete(sc: Scenario, net: Net) {
    exists nets, events :: EndsComplete(sc, nets, events) && NetRun(sc, nets, events) && nets[0] == net
  }

  /** From any initial state of a server that would serve the request, over a network that may do
      anything, the download can complete if and only if the file is shorter than MaxBlock blocks:
      65535 * 512 bytes, or 127 * 512 where plain `char` is signed. */
  lemma CompletesExactlyBelowTheBound(sc: Scenario, net: Net)
    requires NetInitial(sc, net) && Servable(sc, net.server)
    ensures CanComplete(sc, net) <==> |sc.content| < MaxBlock(sc.signed) * BLOCK_SIZE
  {
    hide NetRun, NetInitial, Servable, Completes;
    assert LastBlock(sc.content) <= MaxBlock(sc.signed) <==> |sc.content| < MaxBlock(sc.signed) * BLOCK_SIZE;
    if LastBlock(sc.content) <= MaxBlock(sc.signed) {
      var nets, events := ExchangeIsARun(sc, net);
    }
    if CanComplete(sc, net) {
      var nets: seq<Net>, events: seq<NetEvent> :|
        EndsComplete(sc, nets, events) && NetRun(sc, nets, events) && nets[0] == net;
      var k := |events| - 1;
      CompletionAgrees(sc, nets, events, k, events[k].event);
      InvAtEveryPoint(sc, nets, events, k);
    }
  }
}
