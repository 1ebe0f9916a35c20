/**
 Runs of the server program: any sequence of starts, stops, and readiness
 notices for the server's or a transfer's socket, with any outcome the system
 can report. What holds after every run is stated here.
*/
module Runs {
  import opened Wire
  import opened Transports
  import opened Files
  import opened Reactors
  import opened Transfers
  import opened Servers
  import opened Ownership
  import opened Requests
  import opened SenderStream

  datatype Event =
    | ServerStarts(socket: SocketIo, bindOk: bool)
    | ServerStops
    | ServerNotified(fd: int, events: EventMask, recv: RecvIo, setup: SetupIo)
    | TransferNotified(slot: nat, notice: Notice)

  ghost predicate Possible(s: State, e: Event) {
    match e
    case ServerStarts(socket, _) => FreshSocket(s.core, socket)
    case ServerStops => true
    case ServerNotified(_, _, _, setup) => FreshSocket(s.core, setup.socket)
    case TransferNotified(slot, _) => slot < |s.core.transfers|
  }

  function Step(s: State, e: Event): (s': State)
    requires WellFormedState(s) && Possible(s, e)
    ensures WellFormedState(s')
  {
    hide ServerStarted, ServerStopped, ServerReady, TransferReady;
    match e
    case ServerStarts(socket, bindOk) => ServerStarted(s, socket, bindOk).0
    case ServerStops => ServerStopped(s).0
    case ServerNotified(fd, events, recv, setup) => ServerReady(s, fd, events, recv, setup).state
    case TransferNotified(slot, notice) =>
      s.(core := TransferReady(s.core, slot, notice).core)
  }

  lemma StepKeepsOwned(s: State, e: Event)
    requires Owned(s) && Possible(s, e)
    ensures Owned(Step(s, e))
  {
    match e {
      case ServerStarts(socket, bindOk) => StartKeepsOwned(s, socket, bindOk);
      case ServerStops => StopKeepsOwned(s);
      case ServerNotified(fd, events, recv, setup) => ServerReadyKeepsOwned(s, fd, events, recv, setup);
      case TransferNotified(slot, notice) => TransferReadyKeepsOwned(s, slot, notice);
    }
  }

  /** An initialised reactor and server over static pools nobody has used yet. */
  ghost predicate Initial(s: State) {
    && WellFormedState(s)
    && (forall k :: 0 <= k < |s.core.transports| ==> !s.core.transports[k].used && !s.core.transports[k].transport.open)
    && (forall m :: 0 <= m < |s.core.files| ==> s.core.files[m] == FREE_FILE)
    && (forall i :: 0 <= i < |s.core.transfers| ==> s.core.transfers[i] == RESET)
    && s.core.table.initialized && s.core.table.entries == []
    && s.server.initialized && s.server.reactor
    && !s.server.running && !s.server.registered && s.server.transport.None?
  }

  lemma InitialIsOwned(s: State)
    requires Initial(s)
    ensures Owned(s) && AtMostOneTransfer(s)
  {
  }

  /** A run: the states it passes through, one more than the events between them. */
  ghost predicate Run(states: seq<State>, events: seq<Event>) {
    && |states| == |events| + 1
    && forall k {:trigger events[k]} :: 0 <= k < |events| ==>
         WellFormedState(states[k]) && Possible(states[k], events[k]) && states[k + 1] == Step(states[k], events[k])
  }

  // ---------- a single active transfer ----------

  ghost predicate AtMostOneTransfer(s: State) {
    forall i, j :: 0 <= i < j < |s.core.transfers| ==> !(s.core.transfers[i].inUse && s.core.transfers[j].inUse)
  }

  lemma ServeKeepsAtMostOne(s: State, data: seq<byte>, source: Endpoint, io: SetupIo)
    requires Owned(s) && FreshSocket(s.core, io.socket) && AtMostOneTransfer(s)
    ensures AtMostOneTransfer(Serve(s, data, source, io).state)
  {
    var r := Serve(s, data, source, io);
    if r.status != Ok {
      FailedRequestsLeaveNoTrace(s, data, source, io);
    } else {
      forall j | 0 <= j < |s.core.transfers| ensures !s.core.transfers[j].inUse {
        if s.core.transfers[j].inUse {
          BusyServerRefuses(s, j, data, source, io);
        }
      }
      AcceptedRequest(s, data, source, io);
    }
  }

  lemma StepKeepsAtMostOne(s: State, e: Event)
    requires Owned(s) && Possible(s, e) && AtMostOneTransfer(s)
    ensures AtMostOneTransfer(Step(s, e))
  {
    hide OnReady, Serve, Registered, Unregistered, ListeningSocket, FileClosed;
    hide FilesOwned, TableOwned, TransportsOwned, ServerSettled;
    match e {
      case ServerStarts(socket, bindOk) =>
      case ServerStops =>
      case ServerNotified(fd, events, recv, setup) =>
        var r := ServerReady(s, fd, events, recv, setup);
        if r.state != s {
          var v := s.core.transports[s.server.transport.value].transport;
          ServeKeepsAtMostOne(s, Received(v, RX_BUFFER_SIZE, recv).1, recv.source, setup);
        }
      case TransferNotified(slot, notice) =>
        var t := s.core.transfers[slot];
        assert Settled(t);
    }
  }

  // ---------- every run ----------

  lemma {:induction false} KeptAtEveryPoint(states: seq<State>, events: seq<Event>, k: nat)
    requires Run(states, events) && k < |states|
    requires Owned(states[0]) && AtMostOneTransfer(states[0])
    ensures Owned(states[k]) && AtMostOneTransfer(states[k])
  {
    hide Owned, AtMostOneTransfer, Step, Possible;
    if k == 0 {
    } else {
      KeptAtEveryPoint(states, events, k - 1);
      var e := events[k - 1];
      StepKeepsOwned(states[k - 1], e);
      StepKeepsAtMostOne(states[k - 1], e);
    }
  }

  /** Every state a run reaches is properly owned. */
  lemma ReachableStatesAreOwned(states: seq<State>, events: seq<Event>)
    requires Run(states, events) && Initial(states[0])
    ensures forall k :: 0 <= k < |states| ==> Owned(states[k])
  {
    hide Owned, AtMostOneTransfer, Step, Possible, Initial;
    InitialIsOwned(states[0]);
    forall k | 0 <= k < |states| ensures Owned(states[k]) {
      KeptAtEveryPoint(states, events, k);
    }
  }

  /** In every state a run reaches at most one transfer is active. */
  lemma SingleActiveTransfer(states: seq<State>, events: seq<Event>)
    requires Run(states, events) && Initial(states[0])
    ensures forall k :: 0 <= k < |states| ==> AtMostOneTransfer(states[k])
  {
    hide Owned, AtMostOneTransfer, Step, Possible, Initial;
    InitialIsOwned(states[0]);
    forall k | 0 <= k < |states| ensures AtMostOneTransfer(states[k]) {
      KeptAtEveryPoint(states, events, k);
    }
  }

  // ---------- one transfer inside the program ----------

  /** In the program the handler of a transfer does to it exactly what it does to the transfer
      on its own, so what holds of every session holds here: while the session is active, its
      transfer, file and socket are in their slots; once it is released, its slots are free. */
  lemma HandlerRunsItsSession(s: State, i: nat, notice: Notice)
    requires Owned(s) && i < |s.core.transfers| && s.core.transfers[i].inUse
    ensures var t := s.core.transfers[i];
            t.transport.Some? && t.file.Some? &&
            var v := s.core.transports[t.transport.value].transport;
            var c := TransferReady(s.core, i, notice).core;
            var (session, sent) := Notified(Active(t, FileOf(s.core, t)), v, notice);
            SocketReady(v) && TransferReady(s.core, i, notice).sent == sent &&
            if session.Active? then
              c.transfers[i] == session.transfer && FileOf(c, c.transfers[i]) == session.file &&
              c.transfers[i].inUse && c.transfers[i].transport == t.transport &&
              c.transports == s.core.transports && c.table == s.core.table
            else
              !c.transfers[i].inUse && !c.files[t.file.value].inUse && !c.transports[t.transport.value].used
  {
    hide OnReady;
    assert Held(s, TransferCallback(i)).Some?;
    assert Settled(s.core.transfers[i]);
  }

  // ---------- the configured transfer limit ----------

  /** The same state under another transfer limit. */
  function WithLimit(s: State, limit: nat): State {
    s.(server := s.server.(maxTransfers := limit))
  }

  lemma LimitIsNeverConsulted(s: State, e: Event, limit: nat)
    requires WellFormedState(s) && Possible(s, e)
    ensures WellFormedState(WithLimit(s, limit)) && Possible(WithLimit(s, limit), e)
    ensures Step(WithLimit(s, limit), e) == WithLimit(Step(s, e), limit)
  {
    hide ServerReady, ListeningSocket, Registered, Unregistered, TransferReady;
    match e {
      case ServerStarts(_, _) =>
      case ServerStops =>
      case ServerNotified(fd, events, recv, setup) => ListeningIgnoresTheLimit(s, fd, events, recv, setup, limit);
      case TransferNotified(_, _) =>
    }
  }

  lemma ListeningIgnoresTheLimit(s: State, fd: int, events: EventMask, recv: RecvIo, io: SetupIo, limit: nat)
    requires WellFormedState(s)
    ensures WellFormedState(WithLimit(s, limit))
    ensures var r := ServerReady(s, fd, events, recv, io);
            ServerReady(WithLimit(s, limit), fd, events, recv, io) == Served(WithLimit(r.state, limit), r.status, r.sent)
  {
    hide Serve;
    if s.server.transport.Some? && recv.RecvOk? {
      var v := s.core.transports[s.server.transport.value].transport;
      ServingIgnoresTheLimit(s, Received(v, RX_BUFFER_SIZE, recv).1, recv.source, io, limit);
    }
  }

  lemma ServingIgnoresTheLimit(s: State, data: seq<byte>, source: Endpoint, io: SetupIo, limit: nat)
    requires WellFormedState(s)
    ensures WellFormedState(WithLimit(s, limit))
    ensures var r := Serve(s, data, source, io);
            Serve(WithLimit(s, limit), data, source, io) == Served(WithLimit(r.state, limit), r.status, r.sent)
  {
    hide WellFormed, Process, Created, Cleaned, FreeTransfer;
  }

  function LimitedTo(states: seq<State>, limit: nat): (r: seq<State>)
    ensures |r| == |states|
  {
    seq(|states|, k requires 0 <= k < |states| => WithLimit(states[k], limit))
  }

  /** Whatever limit is configured, the program does the same: every run is a run under any other
      limit, through the same states. */
  lemma TransferLimitLimitsNothing(states: seq<State>, events: seq<Event>, limit: nat)
    requires Run(states, events)
    ensures Run(LimitedTo(states, limit), events)
  {
    hide Step, Possible, WellFormedState, WithLimit;
    var limited := LimitedTo(states, limit);
    forall k | 0 <= k < |events|
      ensures WellFormedState(limited[k]) && Possible(limited[k], events[k])
      ensures limited[k + 1] == Step(limited[k], events[k])
    {
      LimitIsNeverConsulted(states[k], events[k], limit);
    }
  }
}
