/**
 The server of src/tftp/server/tftp_server.c as functions on values: start,
 stop, and serving one request, together with the steps the whole program can take.
*/
module Servers {
  import opened Wire
  import opened Packet
  import opened Transports
  import opened Files
  import opened Reactors
  import opened Transfers

  /** The server object; `transport` is a pool index, `reactor` says the pointer is set. */
  datatype Server = Server(
    initialized: bool, running: bool, registered: bool, port: uint16, maxTransfers: nat,
    transport: Option<nat>, reactor: bool)

  datatype State = State(core: Core, server: Server)

  ghost predicate WellFormedState(s: State) {
    && WellFormed(s.core)
    && (s.server.transport.Some? ==> s.server.transport.value < POOL_SIZE)
    && (s.server.initialized || s.server.transport.Some? ==> s.server.reactor)
  }

  /** `TFTP_SERVER_RX_BUFFER_SIZE`. */
  const RX_BUFFER_SIZE: nat := 1500

  // ---------- start and stop ----------

  /** The socket a start creates, opens and binds, and how far it got. */
  function ListeningSocket(port: uint16, socket: SocketIo, bindOk: bool): (Transport, Status) {
    var (v, status) := Opened(Inited(CLEARED, port, true).0, socket);
    if status != Ok then (v, status) else Bound(v, port, bindOk)
  }

  function ServerStarted(s: State, socket: SocketIo, bindOk: bool): (r: (State, Status))
    requires WellFormedState(s)
    ensures WellFormedState(r.0)
  {
    var server := s.server;
    if !server.initialized then (s, NotInitialized)
    else if server.running then (s, InvalidState)
    else
      var k := FreeSlot(s.core.transports);
      if k == POOL_SIZE then (s.(server := server.(transport := None)), NoResource)
      else
        var (v, socketStatus) := ListeningSocket(server.port, socket, bindOk);
        var (table, status) :=
          if socketStatus != Ok then (s.core.table, socketStatus)
          else if FdOf(v) < 0 then (s.core.table, InvalidState)
          else Registered(s.core.table, Registration(FdOf(v), READ_AND_ERROR, ServerCallback));
        if status == Ok then
          (State(s.core.(transports := s.core.transports[k := Slot(true, v)], table := table),
                 server.(transport := Some(k), registered := true, running := true)), Ok)
        else
          (State(s.core.(transports := s.core.transports[k := Slot(false, CLEARED)]),
                 server.(transport := None, registered := false, running := false)), status)
  }

  function ServerStopped(s: State): (r: (State, Status))
    requires WellFormedState(s)
    ensures WellFormedState(r.0)
  {
    var server := s.server.(running := false);
    if server.transport.None? then (s.(server := server), Ok)
    else
      var k := server.transport.value;
      var fd := FdOf(s.core.transports[k].transport);
      var unregisters := server.registered && server.reactor && fd >= 0;
      var (table, status) := if unregisters then Unregistered(s.core.table, fd) else (s.core.table, Ok);
      (State(s.core.(transports := s.core.transports[k := Slot(false, CLEARED)], table := table),
             server.(transport := None, registered := server.registered && !unregisters)),
       status)
  }

  // ---------- serving a request ----------

  datatype Served = Served(state: State, status: Status, sent: seq<seq<byte>>)

  /** Acquire, initialise and start a transfer for a valid read request. */
  function Created(c: Core, filename: seq<byte>, source: Endpoint): (r: (Core, Status))
    requires WellFormed(c) && FreeTransfer(c.transfers) < |c.transfers|
    ensures WellFormed(r.0) && |r.0.transfers| == |c.transfers|
  {
    var i := FreeTransfer(c.transfers);
    var (t, status) := Started(RESET.(inUse := true, initialized := true), RRQ, filename, source, c.maxFilename);
    (SetTransfer(c, i, t), status)
  }

  function Serve(s: State, data: seq<byte>, source: Endpoint, io: SetupIo): (r: Served)
    requires WellFormedState(s)
    ensures WellFormedState(r.state)
  {
    hide Process, Cleaned, Started, FreeTransfer, ParseRequest;
    if !s.server.running then Served(s, InvalidState, [])
    else match ParseRequest(data)
         case BadRequest(status) => Served(s, status, [])
         case Request(opcode, filename) =>
           if opcode == WRQ then Served(s, ProtocolError, [])
           else if opcode != RRQ then Served(s, InvalidOpcode, [])
           else
             var i := FreeTransfer(s.core.transfers);
             if i == |s.core.transfers| then Served(s, NoResource, [])
             else
               var (created, startStatus) := Created(s.core, filename, source);
               if startStatus != Ok then Served(s.(core := Cleaned(created, i)), startStatus, [])
               else
                 var r := Process(created, i, io);
                 if r.status != Ok then Served(s.(core := Cleaned(r.core, i)), r.status, r.sent)
                 else Served(s.(core := r.core), Ok, r.sent)
  }

  /** The handler the reactor calls for the server's socket. */
  function ServerReady(s: State, fd: int, events: EventMask, recv: RecvIo, io: SetupIo): (r: Served)
    requires WellFormedState(s)
    ensures WellFormedState(r.state)
  {
    if s.server.transport.None? then Served(s, Ok, [])
    else
      var v := s.core.transports[s.server.transport.value].transport;
      if events.error || !events.read || fd != FdOf(v) then Served(s, Ok, [])
      else
        var (status, data) := Received(v, RX_BUFFER_SIZE, recv);
        if status != Ok then Served(s, Ok, [])
        else Serve(s, data, recv.source, io)
  }

  // ---------- the server object ----------

  method CreateListener(transport: UdpTransport, port: uint16, socket: SocketIo, bindOk: bool) returns (status: Status)
    requires transport.Value() == CLEARED
    modifies transport
    ensures (transport.Value(), status) == ListeningSocket(port, socket, bindOk)
  {
    status := transport.Init(port, false);
    if status == Ok {
      status := transport.Open(socket);
    }
    if status == Ok {
      status := transport.Bind(port, bindOk);
    }
  }

  class TftpServer {
    var initialized: bool
    var running: bool
    var registered: bool
    var port: uint16
    var maxTransfers: nat
    var transport: UdpTransport?
    var reactor: Reactor?
    const statics: Statics

    ghost predicate Valid()
      reads this, statics.reactor, statics.files.pool, statics.pool
    {
      && statics.Valid()
      && (transport != null ==> transport in statics.transports.pool)
      && (reactor != null ==> reactor == statics.reactor)
      && (initialized || transport != null ==> reactor != null)
    }

    function Self(): Server
      reads this
    {
      Server(initialized, running, registered, port, maxTransfers,
             if transport == null then None else Some(transport.slot), reactor != null)
    }

    function Value(): (s: State)
      requires Valid()
      reads this, statics.transports.used, statics.transports.pool, statics.files.pool, statics.reactor,
            statics.reactor.registrations, statics.pool, statics.Buffers()
      ensures WellFormedState(s)
    {
      State(statics.Value(), Self())
    }

    constructor (statics: Statics)
      requires statics.Valid()
      ensures Valid() && this.statics == statics && Self() == Server(false, false, false, 0, 0, None, false)
    {
      this.statics := statics;
      initialized, running, registered, port, maxTransfers := false, false, false, 0, 0;
      transport, reactor := null, null;
    }

    /** `configured` and `limit` are the configuration's port and `max_transfers`; the size of the
        transfer pool is TFTP_MAX_TRANSFERS. */
    method Init(configured: uint16, limit: nat, r: Reactor) returns (status: Status)
      requires Valid() && r == statics.reactor
      modifies this
      ensures Valid()
      ensures status == if configured == 0 then InvalidArgument else if old(initialized) then InvalidState else Ok
      ensures Self() ==
              if status != Ok then old(Self())
              else
                var effective := if limit == 0 then |statics.pool| else Min(limit, |statics.pool|);
                Server(true, false, false, configured, effective, None, true)
    {
      if configured == 0 {
        return InvalidArgument;
      }
      if initialized {
        return InvalidState;
      }
      port := configured;
      maxTransfers := limit;
      if maxTransfers == 0 || maxTransfers > |statics.pool| {
        maxTransfers := |statics.pool|;
      }
      reactor := r;
      transport := null;
      registered := false;
      running := false;
      initialized := true;
      return Ok;
    }

    // Starting, one library call at a time.

    method AcquireListener() returns (status: Status)
      requires Valid() && reactor != null
      modifies this`transport, statics.transports.used, statics.transports.pool
      ensures Valid() && Others(old(statics.files.Files()), old(statics.Transfers()))
      ensures statics.reactor.Value() == old(statics.reactor.Value())
      ensures var k := FreeSlot(old(statics.transports.Slots()));
              var slots := statics.transports.Slots();
              if k == POOL_SIZE then status == NoResource && transport == null && slots == old(statics.transports.Slots())
              else
                status == Ok && transport == statics.transports.pool[k] && transport.Value() == CLEARED &&
                slots == old(statics.transports.Slots())[k := Slot(true, CLEARED)]
    {
      hide WellFormed, TransportPool.Slots, FilePool.Files, Reactor.Value, Statics.Transfers, Statics.Valid;
      ValidStatics();
      var acquired;
      status, acquired := statics.TakeSocket();
      transport := acquired;
      if status == Ok {
        assert statics.transports.Slots()[transport.slot].transport == CLEARED;
      }
    }

    /** The files and the transfers are these. */
    ghost predicate Others(files: seq<File>, transfers: seq<Transfer>)
      requires statics.Valid()
      reads statics.transports.used, statics.transports.pool, statics.files.pool, statics.reactor,
            statics.reactor.registrations, statics.pool, statics.Buffers()
    {
      statics.files.Files() == files && statics.Transfers() == transfers
    }

    lemma SocketValue()
      requires Valid()
      ensures transport != null ==>
                transport.slot < POOL_SIZE && Value().core.transports[transport.slot].transport == transport.Value()
    {
    }

    /** The table as the reactor holds it. */
    lemma ReactorCount()
      requires Valid()
      ensures statics.reactor.Valid() && statics.reactor.count == |Value().core.table.entries| <= MAX_HANDLERS
      ensures forall k :: 0 <= k < statics.reactor.count ==>
                Value().core.table.entries[k] == statics.reactor.registrations[k]
    {
    }

    lemma ValidStatics()
      requires Valid()
      ensures statics.Valid() && statics.transports.Valid() && statics.reactor.Valid()
    {
    }

    method OpenListener(socket: SocketIo, bindOk: bool) returns (status: Status)
      requires Valid() && transport != null && transport.Value() == CLEARED
      modifies transport
      ensures Valid() && Others(old(statics.files.Files()), old(statics.Transfers()))
      ensures statics.reactor.Value() == old(statics.reactor.Value())
      ensures (transport.Value(), status) == ListeningSocket(port, socket, bindOk)
      ensures var k := transport.slot;
              statics.transports.Slots() ==
              old(statics.transports.Slots())[k := Slot(statics.transports.used[k], transport.Value())]
    {
      hide WellFormed, TransportPool.Slots, FilePool.Files, Reactor.Value, Statics.Transfers, Statics.Valid;
      hide ListeningSocket;
      ValidStatics();
      status := CreateListener(transport, port, socket, bindOk);
      statics.transports.OnlyTransportChanged(transport);
    }

    method RegisterListener() returns (status: Status)
      requires Valid() && transport != null
      modifies statics.reactor, statics.reactor.registrations
      ensures Valid() && Others(old(statics.files.Files()), old(statics.Transfers()))
      ensures statics.transports.Slots() == old(statics.transports.Slots())
      ensures (statics.reactor.Value(), status) ==
              if transport.GetFd() < 0 then (old(statics.reactor.Value()), InvalidState)
              else Registered(old(statics.reactor.Value()), Registration(transport.GetFd(), READ_AND_ERROR, ServerCallback))
    {
      hide WellFormed, TransportPool.Slots, FilePool.Files, Reactor.Value, Statics.Transfers, FdOf;
      ValidStatics();
      var fd := transport.GetFd();
      if fd < 0 {
        return InvalidState;
      }
      status := statics.reactor.Register(Registration(fd, READ_AND_ERROR, ServerCallback));
    }

    /** Close, deinitialise and release the server's socket, whatever the close reports. */
    method ReleaseListener()
      requires Valid() && transport != null
      modifies this`transport, statics.transports.used, statics.transports.pool
      ensures Valid() && Others(old(statics.files.Files()), old(statics.Transfers()))
      ensures statics.reactor.Value() == old(statics.reactor.Value()) && transport == null
      ensures statics.transports.Slots() == old(statics.transports.Slots())[old(transport).slot := Slot(false, CLEARED)]
    {
      hide WellFormed, TransportPool.Slots, FilePool.Files, Reactor.Value, Statics.Transfers, Statics.Valid;
      ValidStatics();
      statics.transports.CloseAndRelease(transport);
      transport := null;
    }

    /** Initialise, open, bind and register the acquired socket. */
    method Listen(socket: SocketIo, bindOk: bool) returns (status: Status)
      requires Valid() && transport != null && transport.Value() == CLEARED
      modifies transport, statics.reactor, statics.reactor.registrations
      ensures Valid() && Others(old(statics.files.Files()), old(statics.Transfers()))
      ensures var (v, socketStatus) := ListeningSocket(port, socket, bindOk);
              var table := old(statics.reactor.Value());
              var k := transport.slot;
              transport.Value() == v &&
              statics.transports.Slots() == old(statics.transports.Slots())[k := Slot(statics.transports.used[k], v)] &&
              (statics.reactor.Value(), status) ==
              if socketStatus != Ok then (table, socketStatus)
              else if FdOf(v) < 0 then (table, InvalidState)
              else Registered(table, Registration(FdOf(v), READ_AND_ERROR, ServerCallback))
    {
      hide WellFormed, TransportPool.Slots, FilePool.Files, Reactor.Value, Statics.Transfers, Statics.Valid;
      hide ListeningSocket, FdOf, Registered;
      status := OpenListener(socket, bindOk);
      if status == Ok {
        status := RegisterListener();
      }
      ValidStatics();
    }

    /** Listen, or give the socket back. */
    method ListenOrGiveUp(socket: SocketIo, bindOk: bool) returns (status: Status)
      requires Valid() && transport != null && transport.Value() == CLEARED
      requires statics.transports.Slots()[transport.slot].used
      modifies this`transport, statics.transports.used, statics.transports.pool,
               statics.reactor, statics.reactor.registrations
      ensures Valid() && Others(old(statics.files.Files()), old(statics.Transfers()))
      ensures var (v, socketStatus) := ListeningSocket(port, socket, bindOk);
              var table := old(statics.reactor.Value());
              (statics.reactor.Value(), status) ==
              if socketStatus != Ok then (table, socketStatus)
              else if FdOf(v) < 0 then (table, InvalidState)
              else Registered(table, Registration(FdOf(v), READ_AND_ERROR, ServerCallback))
      ensures transport == if status == Ok then old(transport) else null
      ensures status != Ok ==> statics.reactor.Value() == old(statics.reactor.Value())
      ensures statics.transports.Slots() ==
              old(statics.transports.Slots())
                [old(transport).slot := if status == Ok then Slot(true, ListeningSocket(port, socket, bindOk).0)
                                        else Slot(false, CLEARED)]
    {
      hide WellFormed, TransportPool.Slots, FilePool.Files, Reactor.Value, Statics.Transfers, Statics.Valid;
      hide ListeningSocket, FdOf;
      ValidStatics();
      status := Listen(socket, bindOk);
      if status != Ok {
        ReleaseListener();
      }
      ValidStatics();
    }

    method Start(socket: SocketIo, bindOk: bool) returns (status: Status)
      requires Valid()
      modifies this`transport, this`registered, this`running, statics.transports.used, statics.transports.pool,
               statics.reactor, statics.reactor.registrations
      ensures Valid() && (Value(), status) == ServerStarted(old(Value()), socket, bindOk)
    {
      hide WellFormed, TransportPool.Slots, FilePool.Files, Reactor.Value, Statics.Transfers, Statics.Valid;
      hide ListeningSocket, FdOf, Registered;
      ValidStatics();
      if !initialized {
        return NotInitialized;
      }
      if running {
        return InvalidState;
      }
      var acquired;
      acquired, status := StartListening(socket, bindOk);
      if acquired {
        SetRunning(status == Ok, status == Ok);
      }
    }

    /** Acquire the server's socket and listen on it. */
    method StartListening(socket: SocketIo, bindOk: bool) returns (acquired: bool, status: Status)
      requires Valid() && reactor != null
      modifies this`transport, statics.transports.used, statics.transports.pool,
               statics.reactor, statics.reactor.registrations
      ensures Valid() && Others(old(statics.files.Files()), old(statics.Transfers()))
      ensures var slots, table := old(statics.transports.Slots()), old(statics.reactor.Value());
              var k := FreeSlot(slots);
              acquired == (k < POOL_SIZE) &&
              if !acquired then
                status == NoResource && transport == null &&
                statics.transports.Slots() == slots && statics.reactor.Value() == table
              else
                var (v, socketStatus) := ListeningSocket(port, socket, bindOk);
                (statics.reactor.Value(), status) ==
                (if socketStatus != Ok then (table, socketStatus)
                 else if FdOf(v) < 0 then (table, InvalidState)
                 else Registered(table, Registration(FdOf(v), READ_AND_ERROR, ServerCallback))) &&
                (status != Ok ==> statics.reactor.Value() == table) &&
                (if status == Ok then transport == statics.transports.pool[k] else transport == null) &&
                statics.transports.Slots() == slots[k := if status == Ok then Slot(true, v) else Slot(false, CLEARED)]
    {
      hide WellFormed, TransportPool.Slots, FilePool.Files, Reactor.Value, Statics.Transfers, Statics.Valid;
      hide ListeningSocket, FdOf, Registered;
      ValidStatics();
      status := AcquireListener();
      acquired := status == Ok;
      if acquired {
        status := ListenOrGiveUp(socket, bindOk);
      }
      ValidStatics();
    }

    method SetRunning(listening: bool, started: bool)
      requires Valid()
      modifies this`registered, this`running
      ensures Valid() && Value().core == old(Value().core)
      ensures registered == listening && running == started
    {
      registered := listening;
      running := started;
    }

    method Stop() returns (status: Status)
      requires Valid()
      modifies this, statics.transports.used, statics.transports.pool, statics.reactor, statics.reactor.registrations
      ensures Valid() && (Value(), status) == ServerStopped(old(Value()))
    {
      hide WellFormed, TransportPool.Slots, FilePool.Files, Reactor.Value, Statics.Transfers, Statics.Valid;
      hide FdOf, Unregistered;
      SocketValue();
      SetRunning(registered, false);
      if transport == null {
        return Ok;
      }
      status := StopListening();
      assert statics.Value() == ServerStopped(old(Value())).0.core;
    }

    /** Unregister the server's socket, and give it back. */
    method StopListening() returns (status: Status)
      requires Valid() && transport != null
      modifies this`transport, this`registered, statics.transports.used, statics.transports.pool,
               statics.reactor, statics.reactor.registrations
      ensures Valid() && transport == null && Others(old(statics.files.Files()), old(statics.Transfers()))
      ensures statics.transports.Slots() == old(statics.transports.Slots())[old(transport).slot := Slot(false, CLEARED)]
      ensures var fd := old(transport.GetFd());
              var unregisters := old(registered) && reactor != null && fd >= 0;
              registered == (old(registered) && !unregisters) &&
              (statics.reactor.Value(), status) ==
              if unregisters then Unregistered(old(statics.reactor.Value()), fd) else (old(statics.reactor.Value()), Ok)
    {
      hide WellFormed, TransportPool.Slots, FilePool.Files, Reactor.Value, Statics.Transfers, Statics.Valid;
      hide FdOf, Unregistered;
      ValidStatics();
      var fd := transport.GetFd();
      status := Ok;
      if registered && reactor != null && fd >= 0 {
        status := UnregisterListener(fd);
        registered := false;
      }
      ReleaseListener();
    }

    method UnregisterListener(fd: int) returns (status: Status)
      requires Valid()
      modifies statics.reactor, statics.reactor.registrations
      ensures Valid() && Others(old(statics.files.Files()), old(statics.Transfers()))
      ensures statics.transports.Slots() == old(statics.transports.Slots())
      ensures (statics.reactor.Value(), status) == Unregistered(old(statics.reactor.Value()), fd)
    {
      hide WellFormed, TransportPool.Slots, FilePool.Files, Reactor.Value, Statics.Transfers;
      status := statics.reactor.Unregister(fd);
    }

    // Serving.

    /** Acquire, initialise and start a transfer. */
    method CreateTransfer(filename: seq<byte>, source: Endpoint) returns (status: Status, t: TftpTransfer?)
      requires Valid()
      modifies statics.pool, statics.Buffers()
      ensures Valid()
      ensures var c := old(statics.Value());
              var i := FreeTransfer(c.transfers);
              if i == |c.transfers| then status == NoResource && t == null && statics.Value() == c
              else
                t == statics.pool[i] && t.slot == i && (statics.Value(), status) == Created(c, filename, source) &&
                t.packetLength == 0
    {
      hide WellFormed, TransportPool.Slots, FilePool.Files, Reactor.Value, Statics.Transfers, Statics.Valid;
      hide FreeTransfer, FilenameValid, Printed;
      ValidStatics();
      ghost var c := statics.Value();
      status, t := statics.AcquireTransfer();
      if status != Ok {
        return;
      }
      statics.ValueOf(t);
      status := statics.StartTransfer(t, filename, source);
      statics.ValueOf(t);
      assert t.packetLength == |t.Value().packet|;
      assert statics.Transfers() == c.transfers[t.slot := t.Value()];
    }

    method ProcessEvent(data: array<byte>, length: nat, source: Endpoint, io: SetupIo)
      returns (status: Status, sent: seq<seq<byte>>)
      requires Valid() && length <= data.Length
      modifies statics.transports.used, statics.transports.pool, statics.files.pool, statics.reactor,
               statics.reactor.registrations, statics.pool, statics.Buffers()
      ensures Valid()
      ensures Served(Value(), status, sent) == Serve(old(Value()), old(data[..length]), source, io)
    {
      hide WellFormed, TransportPool.Slots, FilePool.Files, Reactor.Value, Statics.Transfers, Statics.Valid;
      hide Process, Created, Cleaned, ParseRequest, Statics.Value;
      ValidStatics();
      if !running {
        return InvalidState, [];
      }
      var request := ScanRequest(data, length);
      if request.BadRequest? {
        return request.status, [];
      }
      if request.opcode == WRQ {
        return ProtocolError, [];
      }
      if request.opcode != RRQ {
        return InvalidOpcode, [];
      }
      var t;
      status, t := CreateTransfer(request.filename, source);
      if t == null {
        return status, [];
      }
      status, sent := RunTransfer(t, status, io);
    }

    /** Process a transfer that started well, and release it if anything failed. */
    method RunTransfer(t: TftpTransfer, started: Status, io: SetupIo) returns (status: Status, sent: seq<seq<byte>>)
      requires Valid() && t in statics.pool && t.packetLength == 0
      modifies statics.transports.used, statics.transports.pool, statics.files.pool, statics.reactor,
               statics.reactor.registrations, t, t.packetBuffer
      ensures Valid()
      ensures var c, i := old(statics.Value()), t.slot;
              i < |c.transfers| &&
              if started != Ok then Processed(statics.Value(), status, sent) == Processed(Cleaned(c, i), started, [])
              else
                var r := Process(c, i, io);
                (status, sent) == (r.status, r.sent) &&
                statics.Value() == if r.status != Ok then Cleaned(r.core, i) else r.core
    {
      hide WellFormed, Statics.Valid, Process, Cleaned, Statics.Value;
      ValidStatics();
      statics.ValueOf(t);
      status, sent := started, [];
      if status == Ok {
        status, sent := statics.TransferProcess(t, io);
      }
      if status != Ok {
        statics.Cleanup(t);
      }
    }

    method UdpHandler(fd: int, events: EventMask, recv: RecvIo, io: SetupIo) returns (sent: seq<seq<byte>>)
      requires Valid()
      modifies statics.transports.used, statics.transports.pool, statics.files.pool, statics.reactor,
               statics.reactor.registrations, statics.pool, statics.Buffers()
      ensures Valid()
      ensures Served(Value(), ServerReady(old(Value()), fd, events, recv, io).status, sent) ==
              ServerReady(old(Value()), fd, events, recv, io)
    {
      hide Serve, Received, FdOf, WellFormed, Statics.Valid, Statics.Value;
      ValidStatics();
      SocketValue();
      if transport == null {
        return [];
      }
      if events.error {
        return [];
      }
      if !events.read {
        return [];
      }
      if fd != transport.GetFd() {
        return [];
      }
      var received := Received(transport.Value(), RX_BUFFER_SIZE, recv);
      if received.0 != Ok {
        return [];
      }
      var buffer := new byte[|received.1|](k requires 0 <= k < |received.1| => received.1[k]);
      assert buffer[..buffer.Length] == received.1;
      var _, datagrams := ProcessEvent(buffer, buffer.Length, recv.source, io);
      return datagrams;
    }
  }
}
