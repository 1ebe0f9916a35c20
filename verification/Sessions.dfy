/**
 A transfer inside a run of the program: the notices its handler receives while
 it is in use drive it exactly as they drive a transfer on its own, whatever else
 happens in between. So the stream theorems hold of every transfer the server
 ever accepts.
*/
module Sessions {
  import opened Wire
  import opened Packet
  import opened Transports
  import opened Files
  import opened Reactors
  import opened Transfers
  import opened Servers
  import opened Ownership
  import opened Requests
  import opened SenderStream
  import opened Runs

  ghost predicate InUseAt(s: State, i: nat) {
    WellFormedState(s) && i < |s.core.transfers| && s.core.transfers[i].inUse
  }

  /** Transfer `i` and its file. */
  function SessionAt(s: State, i: nat): (r: Session)
    requires WellFormedState(s) && i < |s.core.transfers|
    ensures r.Active? && SessionValid(r)
  {
    Active(s.core.transfers[i], FileOf(s.core, s.core.transfers[i]))
  }

  /** The socket of transfer `i`. */
  function SocketAt(s: State, i: nat): Transport
    requires WellFormedState(s) && i < |s.core.transfers|
  {
    if s.core.transfers[i].transport.Some? then s.core.transports[s.core.transfers[i].transport.value].transport
    else CLEARED
  }

  predicate IsFor(i: nat, e: Event) {
    e.TransferNotified? && e.slot == i
  }

  /** The notices transfer `i` receives from event `a` up to event `b`. */
  function NoticesBetween(i: nat, events: seq<Event>, a: nat, b: nat): seq<Notice>
    requires a <= b <= |events|
    decreases b - a
  {
    if a == b then []
    else if IsFor(i, events[a]) then [events[a].notice] + NoticesBetween(i, events, a + 1, b)
    else NoticesBetween(i, events, a + 1, b)
  }

  /** What transfer `i` sends from event `a` up to event `b`. */
  ghost function SentBetween(i: nat, states: seq<State>, events: seq<Event>, a: nat, b: nat): seq<seq<byte>>
    requires Run(states, events) && a <= b <= |events|
    decreases b - a
  {
    if a == b then []
    else if IsFor(i, events[a]) then
      TransferReady(states[a].core, i, events[a].notice).sent + SentBetween(i, states, events, a + 1, b)
    else SentBetween(i, states, events, a + 1, b)
  }

  // ---------- one event ----------

  /** No event but its own notices touches a transfer in use, its file or its socket. */
  lemma OtherEventsSpareIt(s: State, e: Event, i: nat)
    requires Owned(s) && AtMostOneTransfer(s) && Possible(s, e) && InUseAt(s, i) && !IsFor(i, e)
    ensures var s' := Step(s, e);
            InUseAt(s', i) && SessionAt(s', i) == SessionAt(s, i) && SocketAt(s', i) == SocketAt(s, i)
  {
    hide TableOwned;
    hide Serve, TransferReady, Unregistered, Registered, ListeningSocket, FilesOwned;
    var k := Held(s, TransferCallback(i));
    assert Settled(s.core.transfers[i]) && s.core.transports[k.value].used;
    match e {
      case ServerStarts(_, _) =>
      case ServerStops =>
        assert s.server.transport.Some? ==> Held(s, ServerCallback) != k;
      case ServerNotified(fd, events, recv, setup) =>
        var r := ServerReady(s, fd, events, recv, setup);
        if r.state != s {
          var v := s.core.transports[s.server.transport.value].transport;
          var data := Received(v, RX_BUFFER_SIZE, recv).1;
          BusyServerRefuses(s, i, data, recv.source, setup);
          FailedRequestsLeaveNoTrace(s, data, recv.source, setup);
        }
      case TransferNotified(slot, notice) =>
        assert Settled(s.core.transfers[slot]);
        IdleTransferIgnores(s, slot, notice);
    }
  }

  lemma IdleTransferIgnores(s: State, slot: nat, notice: Notice)
    requires WellFormedState(s) && slot < |s.core.transfers| && s.core.transfers[slot] == RESET
    ensures TransferReady(s.core, slot, notice).core == s.core
  {
  }

  // ---------- from one point of a run to another ----------

  ghost predicate InUseThroughout(states: seq<State>, i: nat, a: nat, b: nat)
    requires a < b < |states|
  {
    forall k :: a <= k < b ==> InUseAt(states[k], i)
  }

  /** While transfer `i` is in use, its notices drive it as they drive a transfer on its own: the
      same datagrams are sent, the same state is reached, and it is released in the program
      exactly when it is released on its own. */
  lemma {:induction false} NoticesDriveTheTransfer(states: seq<State>, events: seq<Event>, i: nat, a: nat, b: nat)
    requires Run(states, events) && a < b < |states| && InUseThroughout(states, i, a, b)
    requires Owned(states[a]) && AtMostOneTransfer(states[a])
    ensures var (session, sent) :=
              NotifiedAll(SessionAt(states[a], i), SocketAt(states[a], i), NoticesBetween(i, events, a, b));
            sent == SentBetween(i, states, events, a, b) &&
            (session.Active? <==> InUseAt(states[b], i)) &&
            (session.Active? ==>
               session == SessionAt(states[b], i) && SocketAt(states[b], i) == SocketAt(states[a], i))
    decreases b - a
  {
    hide Owned, AtMostOneTransfer, Step, Possible, Notified, TransferReady, WellFormedState, SessionAt, SocketAt;
    var s, e := states[a], events[a];
    assert states[a + 1] == Step(s, e);
    var v := SocketAt(s, i);
    assert InUseAt(s, i);
    EventStep(s, e, i);
    StepKeepsOwned(s, e);
    StepKeepsAtMostOne(s, e);
    var notices := NoticesBetween(i, events, a, b);
    var later := NoticesBetween(i, events, a + 1, b);
    if a + 1 < b {
      assert InUseAt(states[a + 1], i);
      NoticesDriveTheTransfer(states, events, i, a + 1, b);
    } else {
      assert later == [] && SentBetween(i, states, events, a + 1, b) == [];
    }
    if IsFor(i, e) {
      assert notices[1..] == later;
      var (s1, sent1) := Notified(SessionAt(s, i), v, e.notice);
      assert a + 1 == b ==> sent1 + [] == sent1;
    }
  }

  lemma EventStep(s: State, e: Event, i: nat)
    requires Owned(s) && AtMostOneTransfer(s) && InUseAt(s, i) && Possible(s, e)
    ensures WellFormedState(Step(s, e))
    ensures var s' := Step(s, e);
            if IsFor(i, e) then
              var (session, sent) := Notified(SessionAt(s, i), SocketAt(s, i), e.notice);
              sent == TransferReady(s.core, i, e.notice).sent &&
              (session.Active? <==> InUseAt(s', i)) &&
              (session.Active? ==> session == SessionAt(s', i) && SocketAt(s', i) == SocketAt(s, i))
            else
              InUseAt(s', i) && SessionAt(s', i) == SessionAt(s, i) && SocketAt(s', i) == SocketAt(s, i)
  {
    hide Owned, AtMostOneTransfer, Notified, TransferReady;
    if IsFor(i, e) {
      HandlerRunsItsSession(s, i, e.notice);
    } else {
      OtherEventsSpareIt(s, e, i);
    }
  }

  // ---------- every transfer the server accepts ----------

  /** The event makes the server accept a request: only then does its handler report OK and send. */
  ghost predicate AcceptsRequest(s: State, e: Event)
    requires WellFormedState(s)
  {
    e.ServerNotified? && ServerReady(s, e.fd, e.events, e.recv, e.setup).sent != [] &&
    ServerReady(s, e.fd, e.events, e.recv, e.setup).status == Ok
  }

  /** The bytes the server received with an accepted request. */
  function RequestOf(e: Event): seq<byte>
    requires e.ServerNotified? && e.recv.RecvOk?
  {
    e.recv.datagram[..Min(|e.recv.datagram|, RX_BUFFER_SIZE)]
  }

  function RequestedPath(e: Event): seq<byte>
    requires e.ServerNotified? && e.recv.RecvOk? && ParseRequest(RequestOf(e)).Request?
  {
    ROOT + ParseRequest(RequestOf(e)).filename
  }

  /** Accepting a request puts the first free transfer at block 1 of the requested file, for the
      endpoint that asked. */
  lemma AcceptedSession(s: State, e: Event)
    requires Owned(s) && Possible(s, e) && AcceptsRequest(s, e)
    ensures e.ServerNotified? && e.recv.RecvOk?
    ensures ParseRequest(RequestOf(e)).Request? && RequestedPath(e) in e.setup.disk
    ensures var s', i := Step(s, e), FreeTransfer(s.core.transfers);
            var content := e.setup.disk[RequestedPath(e)];
            InUseAt(s', i) && SocketReady(SocketAt(s', i)) && s'.core.transfers[i].peer == e.recv.source &&
            InStream(s'.core.transfers[i], FileOf(s'.core, s'.core.transfers[i]), content, 1) &&
            ServerReady(s, e.fd, e.events, e.recv, e.setup).sent == [DataDatagram(content, 1)]
  {
    hide Serve, ParseRequest, DataDatagram, InStream, NOT_FOUND, FreeTransfer, FilesOwned;
    ServeSends(s, RequestOf(e), e.recv.source, e.setup);
    AcceptedRequest(s, RequestOf(e), e.recv.source, e.setup);
  }

  /** The name accepted cannot lead out of tftp_root, where the file is. */
  lemma AcceptedName(s: State, e: Event)
    requires Owned(s) && Possible(s, e) && AcceptsRequest(s, e)
    ensures e.ServerNotified? && e.recv.RecvOk? && ParseRequest(RequestOf(e)).Request?
    ensures var name := ParseRequest(RequestOf(e)).filename;
            RequestedPath(e) == [116, 102, 116, 112, 95, 114, 111, 111, 116, 47] + name &&
            name != [] && name != [46] && name != [46, 46] && 47 !in name && 92 !in name
  {
    hide Serve, ParseRequest, FreeTransfer, FilesOwned, TableOwned, NoTransfers;
    RunningServerAccepts(s, RequestOf(e), e.recv.source, e.setup);
  }

  /** What holds of a transfer from the moment it is at block 1 of `content` for `peer`: it sends
      the blocks 1, 2, 3, ... in order, each once; it has received fewer than LastBlock datagrams
      from its peer while it is in use; datagrams of other endpoints might as well not have
      arrived; and if it completes, it has sent the file. */
  ghost predicate StreamsTheFile(
      states: seq<State>, events: seq<Event>, i: nat, a: nat, b: nat, content: seq<byte>, peer: Endpoint)
    requires Run(states, events) && a < b < |states| && InUseAt(states[a], i) && WellFormedState(states[b])
  {
    var s, v := SessionAt(states[a], i), SocketAt(states[a], i);
    var notices := NoticesBetween(i, events, a, b);
    var sent := SentBetween(i, states, events, a, b);
    && DataDatagrams(content, 1) + sent == DataDatagrams(content, 1 + |sent|)
    && NotifiedAll(s, v, notices) == NotifiedAll(s, v, WithoutForeign(peer, v, notices))
    && (NotifiedAll(s, v, notices).0 == Released(true) ==> Payloads(DataDatagrams(content, 1) + sent) == content)
    && (InUseAt(states[b], i) ==>
          FromPeerCount(peer, v, notices) < LastBlock(content) &&
          Streaming(SessionAt(states[b], i), content, 1 + |sent|))
  }

  lemma StreamsWhileInUse(
      states: seq<State>, events: seq<Event>, i: nat, a: nat, b: nat, content: seq<byte>, peer: Endpoint)
    requires Run(states, events) && a < b < |states| && InUseThroughout(states, i, a, b)
    requires Owned(states[a]) && AtMostOneTransfer(states[a])
    requires InUseAt(states[a], i) && WellFormedState(states[b]) && SocketReady(SocketAt(states[a], i))
    requires Streaming(SessionAt(states[a], i), content, 1) && states[a].core.transfers[i].peer == peer
    ensures StreamsTheFile(states, events, i, a, b, content, peer)
  {
    hide Owned, AtMostOneTransfer, Step, Possible, InUseThroughout, SocketAt, Streaming;
    hide NotifiedAll, DataDatagram, Payloads, SentBetween, NoticesBetween, FromPeerCount, LastBlock, WithoutForeign;
    NoticesDriveTheTransfer(states, events, i, a, b);
    var s, v := SessionAt(states[a], i), SocketAt(states[a], i);
    var notices := NoticesBetween(i, events, a, b);
    SendsTheFileInOrder(s, v, notices, content, 1);
    SendsPrefixes(s, v, notices, content, 1);
    ForeignDatagramsDoNothing(s, v, notices, peer);
    if FromPeerCount(peer, v, notices) >= LastBlock(content) {
      PeerDatagramsReleaseTheTransfer(s, v, notices, content, 1, peer);
    }
  }

  /** In every run of the program from an initial state, the transfer an accepted request started
      streams the requested file to the endpoint that asked, for as long as it is in use. */
  lemma AcceptedTransfersStreamTheirFile(states: seq<State>, events: seq<Event>, a: nat, b: nat)
    requires Run(states, events) && Initial(states[0])
    requires a + 1 < b < |states| && WellFormedState(states[a]) && AcceptsRequest(states[a], events[a])
    requires InUseThroughout(states, FreeTransfer(states[a].core.transfers), a + 1, b)
    ensures var i, e := FreeTransfer(states[a].core.transfers), events[a];
            e.ServerNotified? && e.recv.RecvOk? && ParseRequest(RequestOf(e)).Request? && RequestedPath(e) in e.setup.disk &&
            (var name := ParseRequest(RequestOf(e)).filename;
             RequestedPath(e) == [116, 102, 116, 112, 95, 114, 111, 111, 116, 47] + name &&
             name != [] && name != [46] && name != [46, 46] && 47 !in name && 92 !in name) &&
            InUseAt(states[a + 1], i) && WellFormedState(states[b]) &&
            StreamsTheFile(states, events, i, a + 1, b, e.setup.disk[RequestedPath(e)], e.recv.source)
  {
    hide Owned, AtMostOneTransfer, Step, Possible, AcceptsRequest, ParseRequest, Initial, InStream, SocketAt;
    hide InUseThroughout, StreamsTheFile, FreeTransfer, ServerReady, DataDatagram, RequestOf, RequestedPath;
    InitialIsOwned(states[0]);
    KeptAtEveryPoint(states, events, a);
    KeptAtEveryPoint(states, events, a + 1);
    KeptAtEveryPoint(states, events, b);
    OwnedIsWellFormed(states[b]);
    var i, e := FreeTransfer(states[a].core.transfers), events[a];
    AcceptedSession(states[a], e);
    AcceptedName(states[a], e);
    var content := e.setup.disk[RequestedPath(e)];
    FirstBlockStreams(states[a + 1], i, content);
    StreamsWhileInUse(states, events, i, a + 1, b, content, e.recv.source);
  }

  lemma FirstBlockStreams(s: State, i: nat, content: seq<byte>)
    requires WellFormedState(s) && i < |s.core.transfers|
    requires InStream(s.core.transfers[i], FileOf(s.core, s.core.transfers[i]), content, 1)
    ensures Streaming(SessionAt(s, i), content, 1)
  {
  }

  // ---------- a silent peer ----------

  /** No datagram of the peer of transfer `i` reaches it from event `a` up to event `b`. */
  ghost predicate PeerSilent(states: seq<State>, events: seq<Event>, i: nat, a: nat, b: nat)
    requires Run(states, events) && a <= b < |states| && InUseAt(states[a], i)
  {
    FromPeerCount(states[a].core.transfers[i].peer, SocketAt(states[a], i), NoticesBetween(i, events, a, b)) == 0
  }

  /** An event that the peer of a transfer in use has no part in leaves it in use, for the same
      peer on the same socket, and sends nothing for it. */
  lemma SilentStep(s: State, e: Event, i: nat)
    requires Owned(s) && AtMostOneTransfer(s) && InUseAt(s, i) && Possible(s, e)
    requires IsFor(i, e) ==> !FromPeer(s.core.transfers[i], SocketAt(s, i), e.notice)
    ensures var s' := Step(s, e);
            InUseAt(s', i) && SocketAt(s', i) == SocketAt(s, i) &&
            s'.core.transfers[i].peer == s.core.transfers[i].peer &&
            (IsFor(i, e) ==> TransferReady(s.core, i, e.notice).sent == [])
  {
    hide Owned, AtMostOneTransfer, Step, Notified, TransferReady, FromPeer;
    EventStep(s, e, i);
    if IsFor(i, e) {
      HandlerRunsItsSession(s, i, e.notice);
      OtherNoticeStep(s.core.transfers[i], SessionAt(s, i).file, SocketAt(s, i), e.notice);
    }
  }

  lemma BusyServerAcceptsNothing(s: State, e: Event, i: nat)
    requires Owned(s) && InUseAt(s, i) && Possible(s, e)
    ensures !AcceptsRequest(s, e)
  {
    hide Owned, Serve;
    if AcceptsRequest(s, e) {
      var v := s.core.transports[s.server.transport.value].transport;
      BusyServerRefuses(s, i, Received(v, RX_BUFFER_SIZE, e.recv).1, e.recv.source, e.setup);
    }
  }

  lemma {:induction false} SilentStretch(states: seq<State>, events: seq<Event>, i: nat, a: nat, k: nat, b: nat)
    requires Run(states, events) && a <= k <= b < |states| && InUseAt(states[a], i) && PeerSilent(states, events, i, a, b)
    requires Owned(states[a]) && AtMostOneTransfer(states[a])
    ensures InUseAt(states[k], i) && SentBetween(i, states, events, a, k) == []
    ensures k < b ==> !AcceptsRequest(states[k], events[k])
    decreases k - a
  {
    hide Owned, AtMostOneTransfer, Step, Possible, TransferReady, InUseAt, WellFormedState, SocketAt, Delivers, AcceptsRequest;
    if k == a {
      if k < b {
        BusyServerAcceptsNothing(states[k], events[k], i);
      }
    } else {
      var s, e := states[a], events[a];
      var notices := NoticesBetween(i, events, a, b);
      if IsFor(i, e) {
        assert notices[0] == e.notice && notices[1..] == NoticesBetween(i, events, a + 1, b);
      }
      SilentStep(s, e, i);
      StepKeepsOwned(s, e);
      StepKeepsAtMostOne(s, e);
      SilentStretch(states, events, i, a + 1, k, b);
    }
  }

  /** One silent peer closes the server: in every run, from any point at which a transfer is in use
      and for as long as its peer sends nothing, whoever else sends what, and even if the server is
      stopped and started again, the transfer stays in use, sends nothing, and no request is accepted. */
  lemma SilentPeerClosesTheServer(states: seq<State>, events: seq<Event>, i: nat, a: nat, b: nat)
    requires Run(states, events) && Initial(states[0])
    requires a <= b < |states| && InUseAt(states[a], i) && PeerSilent(states, events, i, a, b)
    ensures forall k :: a <= k <= b ==> InUseAt(states[k], i)
    ensures forall k {:trigger events[k]} :: a <= k < b ==> !AcceptsRequest(states[k], events[k])
    ensures SentBetween(i, states, events, a, b) == []
  {
    hide Owned, AtMostOneTransfer, Step, Possible, Initial, PeerSilent, AcceptsRequest, InUseAt, SentBetween;
    InitialIsOwned(states[0]);
    KeptAtEveryPoint(states, events, a);
    SilentStretch(states, events, i, a, b, b);
    forall k | a <= k <= b ensures InUseAt(states[k], i) && (k < b ==> !AcceptsRequest(states[k], events[k])) {
      SilentStretch(states, events, i, a, k, b);
    }
  }
}
