/**
 Starting and stopping the server, condition by condition, and how the sockets of
 a run are configured: the server's is bound to the configured port, each
 transfer's to one the system chose, all are non-blocking, and all are watched
 for input and errors.
*/
module Listening {
  import opened Wire
  import opened Transports
  import opened Files
  import opened Reactors
  import opened ReactorLaws
  import opened Transfers
  import opened Servers
  import opened Ownership
  import opened Requests
  import opened Runs

  // ---------- start ----------

  /** What a start needs of the program and of the system. */
  ghost predicate CanStart(s: State, socket: SocketIo, bindOk: bool) {
    && s.server.initialized && !s.server.running
    && (exists k :: 0 <= k < |s.core.transports| && !s.core.transports[k].used)
    && socket.SocketOpens? && socket.fcntlOk && bindOk
    && |s.core.table.entries| < s.core.table.maxHandlers
  }

  /** The state after a successful start: the first free slot holds a non-blocking socket bound to
      the server's port, and the table has one more entry, for its input and errors. */
  ghost predicate StartedWith(s: State, s': State, fd: nat, k: nat) {
    && k < |s.core.transports| && !s.core.transports[k].used
    && (forall j :: 0 <= j < k ==> s.core.transports[j].used)
    && s'.core.transports == s.core.transports[k := Slot(true, Transport(true, true, fd, s.server.port, true))]
    && s'.core.table == s.core.table.(
         entries := s.core.table.entries + [Registration(fd, EventMask(true, false, true), ServerCallback)])
    && s'.core.files == s.core.files && s'.core.transfers == s.core.transfers
    && s'.core.maxFilename == s.core.maxFilename
    && s'.server == s.server.(transport := Some(k), registered := true, running := true)
  }

  /** A start succeeds exactly when it can; otherwise the first thing missing decides what it reports,
      a failed `socket`, `fcntl` or `bind` being an I/O error. */
  lemma StartSucceedsExactlyWhen(s: State, socket: SocketIo, bindOk: bool)
    requires Owned(s)
    ensures ServerStarted(s, socket, bindOk).1 == Ok <==> CanStart(s, socket, bindOk)
    ensures CanStart(s, socket, bindOk) ==>
              StartedWith(s, ServerStarted(s, socket, bindOk).0, socket.fd, FreeSlot(s.core.transports))
    ensures !CanStart(s, socket, bindOk) ==>
              ServerStarted(s, socket, bindOk).1 ==
              if !s.server.initialized then NotInitialized
              else if s.server.running then InvalidState
              else if forall k :: 0 <= k < |s.core.transports| ==> s.core.transports[k].used then NoResource
              else if !(socket.SocketOpens? && socket.fcntlOk && bindOk) then IoError
              else NoResource
  {
    hide TransportsOwned, FilesOwned, Settled;
    var k := FreeSlot(s.core.transports);
    if k < POOL_SIZE {
      assert !s.core.transports[k].used;
    }
  }

  // ---------- stop ----------

  /** Stopping what a start started leaves everything as it was before, except that the slot is cleared. */
  lemma StopUndoesStart(s: State, socket: SocketIo, bindOk: bool)
    requires Owned(s) && FreshSocket(s.core, socket) && CanStart(s, socket, bindOk)
    ensures var k := FreeSlot(s.core.transports);
            k < POOL_SIZE && ServerStopped(ServerStarted(s, socket, bindOk).0) ==
            (s.(core := s.core.(transports := s.core.transports[k := Slot(false, CLEARED)])), Ok)
  {
    hide FilesOwned, Settled, Registered, Unregistered;
    StartSucceedsExactlyWhen(s, socket, bindOk);
    hide ServerStarted;
    assert !s.server.running && s.server.transport.None?;
    FreshIsUnregistered(s, socket.fd);
    var e := Registration(socket.fd, EventMask(true, false, true), ServerCallback);
    UnregisterIsUndone(s.core.table, e);
    assert !Listening(s, ServerCallback);
    var s1 := ServerStarted(s, socket, bindOk).0;
    var k := FreeSlot(s.core.transports);
    assert FdOf(s1.core.transports[k].transport) == socket.fd;
    assert s1.core.transports[k := Slot(false, CLEARED)] == s.core.transports[k := Slot(false, CLEARED)];
    assert s.server.(transport := None, registered := false, running := false) == s.server;
  }

  lemma UnregisterIsUndone(t: Table, e: Registration)
    requires t.initialized && e.fd >= 0 && |t.entries| < t.maxHandlers
    requires IndexOf(t.entries, e.fd) == |t.entries|
    ensures Unregistered(t.(entries := t.entries + [e]), e.fd) == (t, Ok)
  {
    UnregisterUndoesRegister(t, e);
  }

  /** A stop gives back the server's socket and entry and nothing else, and keeps the
      configuration for the next start. */
  lemma StopKeepsTheRest(s: State)
    requires Owned(s)
    ensures var s' := ServerStopped(s).0;
            s'.server == s.server.(transport := None, registered := false, running := false) &&
            s'.core.files == s.core.files && s'.core.transfers == s.core.transfers &&
            s'.core.maxFilename == s.core.maxFilename &&
            s'.core.transports ==
            (if s.server.running then s.core.transports[s.server.transport.value := Slot(false, CLEARED)]
             else s.core.transports) &&
            (forall e :: e in s'.core.table.entries <==> e in s.core.table.entries && e.callback != ServerCallback)
  {
    hide FilesOwned, Settled, Unregistered, Without;
    if s.server.transport.Some? {
      assert Held(s, ServerCallback).Some? && Listening(s, ServerCallback);
      OwnerIsRegistered(s, ServerCallback);
      RemovesItsEntry(s, ServerCallback);
    } else {
      assert !Listening(s, ServerCallback);
      forall e | e in s.core.table.entries ensures e.callback != ServerCallback {
        assert EntryOwned(s, e);
      }
    }
  }

  // ---------- what `poll` watches ----------

  /** In every owned state a pass asks `poll` for input and errors on every socket, and for nothing else. */
  lemma SocketsArePolledForInput(s: State, polled: PollFd, e: Registration)
    requires Owned(s) && e in s.core.table.entries && Watches(polled, e)
    ensures polled.events == PollEvents(true, false, true, false, false)
    ensures exists k :: 0 <= k < |s.core.transports| && s.core.transports[k].used &&
                        s.core.transports[k].transport.open && s.core.transports[k].transport.fd == polled.fd
  {
    hide FilesOwned, Settled;
    assert EntryOwned(s, e);
    var k := Held(s, e.callback).value;
    assert s.core.transports[k].used && s.core.transports[k].transport.open;
  }

  // ---------- every run ----------

  /** A running server's socket is bound to the configured port, a transfer's to none in particular,
      and neither blocks. */
  ghost predicate Configured(s: State)
    requires WellFormedState(s)
  {
    && (s.server.running ==>
          s.server.transport.Some? &&
          var v := s.core.transports[s.server.transport.value].transport;
          v.open && v.nonBlocking && v.localPort == s.server.port)
    && (forall i :: 0 <= i < |s.core.transfers| && s.core.transfers[i].inUse ==> TransferConfigured(s, i))
  }

  ghost predicate TransferConfigured(s: State, i: nat)
    requires WellFormedState(s) && i < |s.core.transfers|
  {
    s.core.transfers[i].transport.Some? &&
    var v := s.core.transports[s.core.transfers[i].transport.value].transport;
    v.open && v.nonBlocking && v.localPort == 0
  }

  /** The parts of the server no event changes. */
  ghost predicate SameConfiguration(s: State, s': State) {
    s'.server.initialized == s.server.initialized && s'.server.port == s.server.port &&
    s'.server.maxTransfers == s.server.maxTransfers && s'.server.reactor == s.server.reactor &&
    s'.core.maxFilename == s.core.maxFilename
  }

  /** A transfer's slot is not the free one. */
  lemma HeldSlotsAreUsed(s: State, o: Callback)
    requires Owned(s) && Held(s, o).Some?
    ensures s.core.transports[Held(s, o).value].used
    ensures forall p :: p != o ==> Held(s, p) != Held(s, o)
  {
  }

  lemma StartKeepsConfigured(s: State, socket: SocketIo, bindOk: bool)
    requires Owned(s) && FreshSocket(s.core, socket) && Configured(s)
    ensures Configured(ServerStarted(s, socket, bindOk).0) && SameConfiguration(s, ServerStarted(s, socket, bindOk).0)
  {
    hide TransportsOwned, TableOwned, FilesOwned, Settled, ListeningSocket, ServerStarted;
    StartSucceedsExactlyWhen(s, socket, bindOk);
    var s' := ServerStarted(s, socket, bindOk).0;
    if !CanStart(s, socket, bindOk) {
      FailedStartsLeaveNoTrace(s, socket, bindOk);
    }
    forall i | 0 <= i < |s'.core.transfers| && s'.core.transfers[i].inUse ensures TransferConfigured(s', i) {
      assert TransferConfigured(s, i);
      HeldSlotsAreUsed(s, TransferCallback(i));
    }
    if s'.server.running && s.server.running {
      HeldSlotsAreUsed(s, ServerCallback);
    }
  }

  lemma StopKeepsConfigured(s: State)
    requires Owned(s) && Configured(s)
    ensures Configured(ServerStopped(s).0) && SameConfiguration(s, ServerStopped(s).0)
  {
    hide TransportsOwned, TableOwned, FilesOwned, Settled, ServerStopped;
    StopKeepsTheRest(s);
    var s' := ServerStopped(s).0;
    forall i | 0 <= i < |s'.core.transfers| && s'.core.transfers[i].inUse ensures TransferConfigured(s', i) {
      assert TransferConfigured(s, i);
      HeldSlotsAreUsed(s, TransferCallback(i));
      if s.server.running {
        assert Held(s, ServerCallback).Some?;
      }
    }
  }

  lemma ServeKeepsConfigured(s: State, data: seq<byte>, source: Endpoint, io: SetupIo)
    requires Owned(s) && FreshSocket(s.core, io.socket) && Configured(s)
    ensures Configured(Serve(s, data, source, io).state) && SameConfiguration(s, Serve(s, data, source, io).state)
  {
    hide TransportsOwned, TableOwned, FilesOwned, Settled, Serve, Registered, IndexOf;
    var r := Serve(s, data, source, io);
    var s' := r.state;
    if r.status == Ok {
      AcceptedRequest(s, data, source, io);
    } else {
      FailedRequestsLeaveNoTrace(s, data, source, io);
    }
    forall i | 0 <= i < |s'.core.transfers| && s'.core.transfers[i].inUse ensures TransferConfigured(s', i) {
      if s.core.transfers[i].inUse {
        assert TransferConfigured(s, i);
        HeldSlotsAreUsed(s, TransferCallback(i));
      }
    }
    if s.server.running {
      assert Held(s, ServerCallback).Some?;
      HeldSlotsAreUsed(s, ServerCallback);
    }
  }

  lemma HandlerKeepsConfigured(s: State, i: nat, n: Notice)
    requires Owned(s) && i < |s.core.transfers| && Configured(s)
    ensures var s' := s.(core := TransferReady(s.core, i, n).core);
            Configured(s') && SameConfiguration(s, s')
  {
    hide TransportsOwned, TableOwned, FilesOwned, TransferReady;
    HandlerKeepsSockets(s.core, i, n);
    assert Settled(s.core.transfers[i]);
    var s' := s.(core := TransferReady(s.core, i, n).core);
    var o := TransferCallback(i);
    forall j | 0 <= j < |s'.core.transfers| && s'.core.transfers[j].inUse ensures TransferConfigured(s', j) {
      if s.core.transfers[j].inUse {
        assert TransferConfigured(s, j);
        HeldSlotsAreUsed(s, TransferCallback(j));
        assert j != i ==> Held(s, o) != Held(s, TransferCallback(j));
      }
    }
    if s.server.running {
      assert Held(s, ServerCallback).Some?;
      HeldSlotsAreUsed(s, ServerCallback);
      assert Held(s, o) != Held(s, ServerCallback);
    }
  }

  /** A handler run leaves the sockets as they are, or releases the transfer and clears its own. */
  lemma HandlerKeepsSockets(c: Core, i: nat, n: Notice)
    requires WellFormed(c) && i < |c.transfers|
    ensures var t, c' := c.transfers[i], TransferReady(c, i, n).core;
            c'.maxFilename == c.maxFilename &&
            (forall j :: 0 <= j < |c.transfers| && j != i ==> c'.transfers[j] == c.transfers[j]) &&
            if c'.transports == c.transports then
              c'.transfers[i] == RESET ||
              (c'.transfers[i].transport == t.transport && c'.transfers[i].inUse == t.inUse)
            else
              t.transport.Some? && c'.transfers[i] == RESET &&
              c'.transports == c.transports[t.transport.value := Slot(false, CLEARED)]
  {
    hide OnReady, Unregistered, FileClosed;
  }

  lemma StepKeepsConfigured(s: State, e: Event)
    requires Owned(s) && Possible(s, e) && Configured(s)
    ensures Configured(Step(s, e)) && SameConfiguration(s, Step(s, e))
  {
    hide Owned, Configured, Serve, ServerStarted, ServerStopped, TransferReady;
    OwnedIsWellFormed(s);
    match e {
      case ServerStarts(socket, bindOk) => StartKeepsConfigured(s, socket, bindOk);
      case ServerStops => StopKeepsConfigured(s);
      case ServerNotified(fd, events, recv, setup) =>
        var r := ServerReady(s, fd, events, recv, setup);
        if r.state != s {
          var v := s.core.transports[s.server.transport.value].transport;
          ServeKeepsConfigured(s, Received(v, RX_BUFFER_SIZE, recv).1, recv.source, setup);
        }
      case TransferNotified(slot, notice) => HandlerKeepsConfigured(s, slot, notice);
    }
  }

  /** In every state of every run the sockets are configured as above, and the server's port and the
      rest of its configuration are those it began with, through any number of starts and stops. */
  lemma {:induction false} SocketsStayConfigured(states: seq<State>, events: seq<Event>, k: nat)
    requires Run(states, events) && Initial(states[0]) && k < |states|
    ensures WellFormedState(states[k]) && Configured(states[k]) && SameConfiguration(states[0], states[k])
  {
    hide Owned, AtMostOneTransfer, Step, Possible, Configured;
    InitialIsOwned(states[0]);
    KeptAtEveryPoint(states, events, k);
    OwnedIsWellFormed(states[k]);
    if k == 0 {
      InitialIsConfigured(states[0]);
    } else {
      SocketsStayConfigured(states, events, k - 1);
      KeptAtEveryPoint(states, events, k - 1);
      var e := events[k - 1];
      StepKeepsConfigured(states[k - 1], e);
    }
  }

  lemma InitialIsConfigured(s: State)
    requires Initial(s)
    ensures Configured(s)
  {
  }
}
