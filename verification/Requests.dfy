/**
 Serving a request: whatever step fails, everything acquired so far is given
 back; when every step succeeds, the new transfer owns exactly one new socket,
 one new file and one new reactor entry.
*/
module Requests {
  import opened Wire
  import opened Packet
  import opened Transports
  import opened Files
  import opened Reactors
  import opened ReactorLaws
  import opened Transfers
  import opened Servers
  import opened Ownership
  import opened SenderStream

  ghost function EntryFor(c: Core, i: nat): Registration
    requires WellFormed(c) && i < |c.transfers| && c.transfers[i].transport.Some?
  {
    Registration(FdOf(c.transports[c.transfers[i].transport.value].transport), READ_AND_ERROR, TransferCallback(i))
  }

  /** `c` is `c0` except for transfer `i` and what that transfer has acquired. */
  ghost predicate Leased(c0: Core, c: Core, i: nat) {
    && WellFormed(c0) && WellFormed(c)
    && i < |c0.transfers| == |c.transfers|
    && c.transfers == c0.transfers[i := c.transfers[i]]
    && c.maxFilename == c0.maxFilename
    && var t := c.transfers[i];
    && (if t.file.Some? then
          !c0.files[t.file.value].inUse && c.files == c0.files[t.file.value := c.files[t.file.value]]
        else c.files == c0.files)
    && (if t.transport.Some? then
          !c0.transports[t.transport.value].used &&
          c.transports == c0.transports[t.transport.value := c.transports[t.transport.value]]
        else c.transports == c0.transports)
    && (if t.registered then
          t.reactor && t.transport.Some? &&
          IndexOf(c0.table.entries, EntryFor(c, i).fd) == |c0.table.entries| &&
          (c.table, Ok) == Registered(c0.table, EntryFor(c, i))
        else c.table == c0.table)
  }

  /** The same state, except that an unused transport slot may have been cleared. */
  ghost predicate SameUpToAClearedSlot(c0: Core, c: Core) {
    c == c0 ||
    exists k :: 0 <= k < |c0.transports| && !c0.transports[k].used &&
                c == c0.(transports := c0.transports[k := Slot(false, CLEARED)])
  }

  /** Releasing a transfer gives back everything it had acquired, wherever the setup stopped. */
  lemma ReleaseReturnsTheLease(c0: Core, c: Core, i: nat)
    requires Leased(c0, c, i) && c0.transfers[i] == RESET
    requires forall m :: 0 <= m < |c0.files| && !c0.files[m].inUse ==> c0.files[m] == FREE_FILE
    ensures SameUpToAClearedSlot(c0, Cleaned(c, i))
  {
    var t := c.transfers[i];
    var c' := Cleaned(c, i);
    assert c'.transfers == c0.transfers;
    if t.registered {
      UnregisterUndoesRegister(c0.table, EntryFor(c, i));
    }
    assert c'.table == c0.table;
    if t.file.Some? {
      ClosedFileIsFree(c.files[t.file.value]);
    }
    assert c'.files == c0.files;
    if t.transport.Some? {
      assert c'.transports == c0.transports[t.transport.value := Slot(false, CLEARED)];
      assert c' == c0.(transports := c0.transports[t.transport.value := Slot(false, CLEARED)]);
    } else {
      assert c' == c0;
    }
  }

  // ---------- the four stages of starting a transfer ----------

  lemma SocketStage(c0: Core, c: Core, i: nat, io: SocketIo)
    requires Leased(c0, c, i) && FreshSocket(c0, io)
    requires c.transfers[i].transport.None? && !c.transfers[i].registered
    ensures var (c', status) := WithSocket(c, i, io);
            Leased(c0, c', i) &&
            c'.transfers[i] == c.transfers[i].(transport := c'.transfers[i].transport) &&
            (status == Ok ==> c'.transfers[i].transport.Some? &&
                              var slot := c'.transports[c'.transfers[i].transport.value];
                              slot.used && OpenSocket(slot.transport) &&
                              io.SocketOpens? && slot.transport == Transport(true, true, io.fd, 0, true))
  {
    hide Registered, IndexOf, EntryFor;
  }

  lemma FileStage(c0: Core, c: Core, i: nat, disk: map<seq<byte>, seq<byte>>)
    requires Leased(c0, c, i) && c.transfers[i].file.None?
    ensures var (c', status) := WithFile(c, i, disk);
            Leased(c0, c', i) && c'.transports == c.transports &&
            c'.transfers[i] == c.transfers[i].(file := c'.transfers[i].file) &&
            (status == Ok ==>
               var path := PathOf(c.transfers[i].filename, c.maxFilename);
               c'.transfers[i].file.Some? && path in disk &&
               c'.files[c'.transfers[i].file.value] == File(true, true, Some(Stream(disk[path], 0))))
  {
    hide Registered, IndexOf, FdOf, PathOf;
    var (c', status) := WithFile(c, i, disk);
    var m := FreeFile(c.files);
    assert m < |c.files| ==> c'.files == c.files[m := c'.files[m]];
  }

  lemma RegistrationStage(c0: Core, c: Core, i: nat)
    requires Leased(c0, c, i) && c.transfers[i].transport.Some? && !c.transfers[i].registered
    requires c.transfers[i].reactor
    requires IndexOf(c0.table.entries, EntryFor(c, i).fd) == |c0.table.entries|
    ensures var (c', status) := WithRegistration(c, i);
            Leased(c0, c', i) && c'.transports == c.transports && c'.files == c.files &&
            (status == Ok ==> c'.transfers[i] == c.transfers[i].(registered := true))
  {
  }

  lemma FirstDataStage(c0: Core, c: Core, i: nat, io: NextIo)
    requires Leased(c0, c, i) && c.transfers[i].transport.Some? && c.transfers[i].file.Some?
    ensures var r := WithFirstData(c, i, io);
            Leased(c0, r.core, i) && r.core.transports == c.transports &&
            SameHoldings(c.transfers[i], r.core.transfers[i],
                         c.files[c.transfers[i].file.value], r.core.files[c.transfers[i].file.value]) &&
            r.core.transfers[i].state == if r.status == Ok then WaitAck else c.transfers[i].state
  {
  }

  // ---------- the whole setup ----------

  /** A freshly created transfer for a read request. */
  ghost predicate Ready(t: Transfer) {
    t.inUse && t.initialized && t.reactor && !t.registered && t.file.None? && t.transport.None? && t.state == Rrq &&
    t.block == 0
  }

  ghost predicate Established(c: Core, i: nat)
    requires WellFormed(c) && i < |c.transfers|
  {
    var t := c.transfers[i];
    && t.inUse && t.initialized && t.reactor && t.registered && t.state == WaitAck
    && t.file.Some? && c.files[t.file.value].inUse && c.files[t.file.value].open
    && t.transport.Some? && c.transports[t.transport.value].used
    && OpenSocket(c.transports[t.transport.value].transport)
  }

  /** A descriptor no open socket has is not in the table either. */
  lemma FreshIsUnregistered(s: State, fd: int)
    requires Owned(s)
    requires forall k :: 0 <= k < POOL_SIZE && s.core.transports[k].transport.open ==>
               s.core.transports[k].transport.fd != fd
    ensures IndexOf(s.core.table.entries, fd) == |s.core.table.entries|
  {
    forall a | 0 <= a < |s.core.table.entries| ensures s.core.table.entries[a].fd != fd {
      assert s.core.table.entries[a] in s.core.table.entries;
      assert EntryOwned(s, s.core.table.entries[a]);
    }
  }

  /** Wherever the setup stops, the state differs from the original only in what the
      transfer leased; when it succeeds, the transfer is established. */
  lemma ProcessLeases(s: State, c: Core, i: nat, io: SetupIo)
    requires Owned(s) && FreshSocket(s.core, io.socket)
    requires Leased(s.core, c, i) && Ready(c.transfers[i])
    ensures var r := Process(c, i, io);
            Leased(s.core, r.core, i) &&
            (r.status == Ok ==>
               Established(r.core, i) && io.socket.SocketOpens? &&
               r.core.transports[r.core.transfers[i].transport.value].transport ==
               Transport(true, true, io.socket.fd, 0, true))
  {
    SocketStage(s.core, c, i, io.socket);
    var (c1, s1) := WithSocket(c, i, io.socket);
    if s1 == Ok {
      FileStage(s.core, c1, i, io.disk);
      var (c2, s2) := WithFile(c1, i, io.disk);
      if s2 == Ok {
        FreshIsUnregistered(s, io.socket.fd);
        RegistrationStage(s.core, c2, i);
        var (c3, s3) := WithRegistration(c2, i);
        if s3 == Ok {
          FirstDataStage(s.core, c3, i, io.next);
        }
      }
    }
  }

  lemma CreatedIsLeased(s: State, filename: seq<byte>, source: Endpoint)
    requires Owned(s) && FreeTransfer(s.core.transfers) < |s.core.transfers|
    ensures var (c, status) := Created(s.core, filename, source);
            var i := FreeTransfer(s.core.transfers);
            s.core.transfers[i] == RESET && Leased(s.core, c, i) &&
            (status == Ok ==> Ready(c.transfers[i]) && c.transfers[i].peer == source && c.transfers[i].opcode == 1)
  {
  }

  /** Whenever serving a request reports anything but OK, the server, the reactor
      table, the files and the transfers are what they were, and so is every used
      transport slot. */
  lemma FailedRequestsLeaveNoTrace(s: State, data: seq<byte>, source: Endpoint, io: SetupIo)
    requires Owned(s) && FreshSocket(s.core, io.socket)
    requires Serve(s, data, source, io).status != Ok
    ensures var s' := Serve(s, data, source, io).state;
            s'.server == s.server && SameUpToAClearedSlot(s.core, s'.core)
  {
    hide Process, Cleaned, ParseRequest, Leased, Ready;
    match ParseRequest(data) {
      case BadRequest(_) =>
      case Request(opcode, filename) =>
        var i := FreeTransfer(s.core.transfers);
        if s.server.running && opcode != WRQ && i < |s.core.transfers| {
          CreatedIsLeased(s, filename, source);
          var (created, status) := Created(s.core, filename, source);
          if status != Ok {
            ReleaseReturnsTheLease(s.core, created, i);
          } else {
            ProcessLeases(s, created, i, io);
            ReleaseReturnsTheLease(s.core, Process(created, i, io).core, i);
          }
        }
    }
  }

  /** An accepted request was a read request to a running server, and established
      a transfer in the first free object, on a fresh socket. */
  lemma AcceptedRequest(s: State, data: seq<byte>, source: Endpoint, io: SetupIo)
    requires Owned(s) && FreshSocket(s.core, io.socket)
    requires Serve(s, data, source, io).status == Ok
    ensures s.server.running
    ensures ParseRequest(data).Request? && ParseRequest(data).opcode == RRQ
    ensures var i := FreeTransfer(s.core.transfers);
            var c := Serve(s, data, source, io).state.core;
            Serve(s, data, source, io).state == s.(core := c) &&
            i < |s.core.transfers| && s.core.transfers[i] == RESET &&
            Leased(s.core, c, i) && Established(c, i) &&
            io.socket.SocketOpens? && EntryFor(c, i).fd == io.socket.fd &&
            c.transports[c.transfers[i].transport.value].transport == Transport(true, true, io.socket.fd, 0, true)
  {
    var filename := ParseRequest(data).filename;
    CreatedIsLeased(s, filename, source);
    ProcessLeases(s, Created(s.core, filename, source).0, FreeTransfer(s.core.transfers), io);
  }

  lemma EstablishedKeepsFiles(c0: Core, c: Core, i: nat)
    requires Leased(c0, c, i) && Established(c, i) && c0.transfers[i] == RESET && FilesOwned(c0)
    ensures FilesOwned(c)
  {
    var m := c.transfers[i].file.value;
    forall q | 0 <= q < |c.files| && c.files[q].inUse
      ensures exists j :: 0 <= j < |c.transfers| && c.transfers[j].file == Some(q)
    {
      if q == m {
        assert c.transfers[i].file == Some(q);
      } else {
        var j :| 0 <= j < |c0.transfers| && c0.transfers[j].file == Some(q);
        assert c.transfers[j].file == Some(q);
      }
    }
  }

  /** A lease that ended well is one more owner, with one more socket and table entry. */
  lemma EstablishedKeepsOwned(s: State, c: Core, i: nat)
    requires Owned(s) && Leased(s.core, c, i) && Established(c, i) && s.core.transfers[i] == RESET
    requires forall k :: 0 <= k < POOL_SIZE && s.core.transports[k].transport.open ==>
               s.core.transports[k].transport.fd != EntryFor(c, i).fd
    ensures Owned(s.(core := c))
  {
    hide FilesOwned, TableOwned, IndexOf;
    var s' := s.(core := c);
    var o := TransferCallback(i);
    var k := c.transfers[i].transport.value;
    var e := EntryFor(c, i);
    assert Gains(s, s', o, k, e);
    GainsKeepsTransports(s, s', o, k, e);
    GainsKeepsTable(s, s', o, k, e);
    EstablishedKeepsFiles(s.core, c, i);
  }

  /** The server's socket and one transfer's take both slots. */
  lemma BothSlotsTaken(s: State, i: nat)
    requires Owned(s) && s.server.transport.Some?
    requires i < |s.core.transfers| && s.core.transfers[i].inUse
    ensures forall k :: 0 <= k < POOL_SIZE ==> s.core.transports[k].used
  {
    assert Settled(s.core.transfers[i]);
    assert Held(s, ServerCallback).Some?;
    assert Held(s, TransferCallback(i)).Some?;
    assert Held(s, ServerCallback) != Held(s, TransferCallback(i));
  }

  lemma ClearedSlotKeepsOwned(s: State, c: Core)
    requires Owned(s) && SameUpToAClearedSlot(s.core, c)
    ensures Owned(s.(core := c))
  {
    var s' := s.(core := c);
    if c != s.core {
      assert forall o :: Held(s', o) == Held(s, o) && Listening(s', o) == Listening(s, o);
      forall j | 0 <= j < POOL_SIZE && c.transports[j].used ensures exists o :: Held(s', o) == Some(j) {
        var o :| Held(s, o) == Some(j);
        assert Held(s', o) == Some(j);
      }
      forall e | e in c.table.entries ensures EntryOwned(s', e) {
        assert EntryOwned(s, e);
      }
    }
  }

  lemma ServeKeepsOwned(s: State, data: seq<byte>, source: Endpoint, io: SetupIo)
    requires Owned(s) && FreshSocket(s.core, io.socket)
    ensures Owned(Serve(s, data, source, io).state)
  {
    var r := Serve(s, data, source, io);
    if r.status != Ok {
      FailedRequestsLeaveNoTrace(s, data, source, io);
      ClearedSlotKeepsOwned(s, r.state.core);
      assert r.state == s.(core := r.state.core);
    } else {
      AcceptedRequest(s, data, source, io);
      EstablishedKeepsOwned(s, r.state.core, FreeTransfer(s.core.transfers));
    }
  }

  lemma ServerReadyKeepsOwned(s: State, fd: int, events: EventMask, recv: RecvIo, io: SetupIo)
    requires Owned(s) && FreshSocket(s.core, io.socket)
    ensures Owned(ServerReady(s, fd, events, recv, io).state)
  {
    var r := ServerReady(s, fd, events, recv, io);
    if r.state != s {
      var v := s.core.transports[s.server.transport.value].transport;
      ServeKeepsOwned(s, Received(v, RX_BUFFER_SIZE, recv).1, recv.source, io);
    }
  }

  /** The reactor, the files, the transfers and the used sockets are unchanged by a failed start too. */
  lemma FailedStartsLeaveNoTrace(s: State, socket: SocketIo, bindOk: bool)
    requires Owned(s) && ServerStarted(s, socket, bindOk).1 != Ok
    ensures ServerStarted(s, socket, bindOk).0.server == s.server
    ensures SameUpToAClearedSlot(s.core, ServerStarted(s, socket, bindOk).0.core)
  {
    assert !Listening(s, ServerCallback) || s.server.running;
    var k := FreeSlot(s.core.transports);
    if s.server.initialized && !s.server.running && k < POOL_SIZE {
      assert ServerStarted(s, socket, bindOk).0.core == s.core.(transports := s.core.transports[k := Slot(false, CLEARED)]);
    }
  }

  // ---------- what a request makes the server send ----------

  /** A setup that fails sends at most the "File not found" error; one that succeeds sends
      the first block of the requested file, and leaves the transfer streaming it. */
  lemma ProcessSends(c0: Core, c: Core, i: nat, io: SetupIo)
    requires Leased(c0, c, i) && FreshSocket(c0, io.socket) && Ready(c.transfers[i])
    requires IndexOf(c0.table.entries, if io.socket.SocketOpens? then io.socket.fd else 0) == |c0.table.entries| ||
             io.socket.SocketFails?
    ensures var r := Process(c, i, io);
            if r.status != Ok then r.sent == [] || r.sent == [NOT_FOUND]
            else
              var path := PathOf(c.transfers[i].filename, c.maxFilename);
              path in io.disk && r.sent == [DataDatagram(io.disk[path], 1)] &&
              InStream(r.core.transfers[i], FileOf(r.core, r.core.transfers[i]), io.disk[path], 1) &&
              r.core.transfers[i].peer == c.transfers[i].peer
  {
    hide DataDatagram, PathOf, SendNextData, NOT_FOUND;
    SocketStage(c0, c, i, io.socket);
    var (c1, s1) := WithSocket(c, i, io.socket);
    if s1 == Ok {
      FileStage(c0, c1, i, io.disk);
      var (c2, s2) := WithFile(c1, i, io.disk);
      if s2 == Ok {
        RegistrationStage(c0, c2, i);
        var (c3, s3) := WithRegistration(c2, i);
        if s3 == Ok {
          var t := c3.transfers[i];
          SendNextDataSendsChunk(
            t, FileOf(c3, t), c3.transports[t.transport.value].transport, io.next,
            io.disk[PathOf(t.filename, c.maxFilename)], 1);
        }
      }
    }
  }

  /** The path opened is "tftp_root/" and the whole requested name. */
  lemma NamesAreNotTruncated(filename: seq<byte>, maxFilename: nat)
    requires |filename| <= maxFilename
    ensures Printed(filename, maxFilename + 1) == filename
    ensures PathOf(filename, maxFilename) == ROOT + filename
  {
  }

  lemma CreatedSends(s: State, filename: seq<byte>, source: Endpoint, io: SetupIo)
    requires Owned(s) && FreshSocket(s.core, io.socket)
    requires FreeTransfer(s.core.transfers) < |s.core.transfers| && Created(s.core, filename, source).1 == Ok
    ensures var i := FreeTransfer(s.core.transfers);
            var r := Process(Created(s.core, filename, source).0, i, io);
            if r.status != Ok then r.sent == [] || r.sent == [NOT_FOUND]
            else
              var path := ROOT + filename;
              path in io.disk && r.sent == [DataDatagram(io.disk[path], 1)] &&
              r.core.transfers[i].peer == source &&
              InStream(r.core.transfers[i], FileOf(r.core, r.core.transfers[i]), io.disk[path], 1)
  {
    hide DataDatagram, PathOf, NOT_FOUND, Process, InStream, Leased, Ready, FilenameValid, Printed;
    CreatedIsLeased(s, filename, source);
    var created := Created(s.core, filename, source).0;
    if io.socket.SocketOpens? {
      FreshIsUnregistered(s, io.socket.fd);
    }
    ProcessSends(s.core, created, FreeTransfer(s.core.transfers), io);
    NamesAreNotTruncated(filename, s.core.maxFilename);
  }

  lemma ServeSends(s: State, data: seq<byte>, source: Endpoint, io: SetupIo)
    requires Owned(s) && FreshSocket(s.core, io.socket)
    ensures (Serve(s, data, source, io).status, Serve(s, data, source, io).sent) == Answer(s, data, io)
    ensures var r := Serve(s, data, source, io);
            if r.status != Ok then r.sent == [] || r.sent == [NOT_FOUND]
            else
              var path := ROOT + ParseRequest(data).filename;
              var i := FreeTransfer(s.core.transfers);
              var c := r.state.core;
              path in io.disk && r.sent == [DataDatagram(io.disk[path], 1)] &&
              i < |c.transfers| && c.transfers[i].peer == source &&
              InStream(c.transfers[i], FileOf(c, c.transfers[i]), io.disk[path], 1)
  {
    hide DataDatagram, NOT_FOUND, Process, Created, InStream, Cleaned, ParseRequest, Answer;
    ServeAnswers(s, data, source, io);
    match ParseRequest(data) {
      case BadRequest(_) =>
      case Request(opcode, filename) =>
        if FreeTransfer(s.core.transfers) < |s.core.transfers| && Created(s.core, filename, source).1 == Ok {
          CreatedSends(s, filename, source, io);
        }
    }
  }

  /** While the server runs, its socket and one transfer's take both slots, so a
      second transfer cannot be set up: no request is accepted. */
  lemma BusyServerRefuses(s: State, i: nat, data: seq<byte>, source: Endpoint, io: SetupIo)
    requires Owned(s) && FreshSocket(s.core, io.socket)
    requires i < |s.core.transfers| && s.core.transfers[i].inUse
    ensures Serve(s, data, source, io).status != Ok
  {
    if s.server.running {
      BothSlotsTaken(s, i);
    }
    if Serve(s, data, source, io).status == Ok {
      AcceptedRequest(s, data, source, io);
    }
  }

  // ---------- exactly which requests are accepted ----------

  lemma OwnedTableIsInitialized(s: State)
    requires Owned(s)
    ensures s.core.table.initialized
  {
  }

  // What each stage of the setup reports, and what the last one sends.

  lemma SocketReport(c: Core, i: nat, io: SocketIo)
    requires WellFormed(c) && i < |c.transfers|
    ensures WithSocket(c, i, io).1 ==
            if FreeSlot(c.transports) == POOL_SIZE then NoResource
            else if io.SocketOpens? && io.fcntlOk then Ok
            else IoError
    ensures WithSocket(c, i, io).0.files == c.files && WithSocket(c, i, io).0.table == c.table
    ensures WithSocket(c, i, io).0.maxFilename == c.maxFilename
  {
  }

  lemma FileReport(c: Core, i: nat, disk: map<seq<byte>, seq<byte>>)
    requires WellFormed(c) && i < |c.transfers|
    ensures WithFile(c, i, disk).1 ==
            if FreeFile(c.files) == |c.files| then NoResource
            else if PathOf(c.transfers[i].filename, c.maxFilename) !in disk then FileError
            else Ok
    ensures WithFile(c, i, disk).0.table == c.table
  {
    hide PathOf;
  }

  lemma RegistrationReport(c: Core, i: nat)
    requires WellFormed(c) && i < |c.transfers| && c.transfers[i].transport.Some?
    requires c.table.initialized && EntryFor(c, i).fd >= 0
    ensures WithRegistration(c, i).1 == if |c.table.entries| < c.table.maxHandlers then Ok else NoResource
  {
  }

  function FirstDataStatus(io: NextIo): Status {
    if io.read.ReadFails? then FileError
    else if io.send.SendWouldBlock? then Busy
    else if io.send.SendFails? then IoError
    else Ok
  }

  lemma FirstDataReport(c: Core, i: nat, content: seq<byte>, io: NextIo)
    requires WellFormed(c) && i < |c.transfers|
    requires var t := c.transfers[i];
             t.initialized && t.block == 0 && t.transport.Some? && t.file.Some? &&
             SocketReady(c.transports[t.transport.value].transport) &&
             c.files[t.file.value] == File(true, true, Some(Stream(content, 0)))
    ensures var r := WithFirstData(c, i, io);
            r.status == FirstDataStatus(io) &&
            r.sent == if r.status == Ok then [DataDatagram(content, 1)] else []
  {
    var t := c.transfers[i];
    var v := c.transports[t.transport.value].transport;
    assert SendNextData(t, FileOf(c, t), v, io).status == FirstDataStatus(io);
    hide SendNextData, DataDatagram;
    SendNextDataSendsChunk(t, FileOf(c, t), v, io, content, 1);
  }

  /** What the whole setup reports and sends: the first of its stages that fails decides. */
  function SetupAnswer(c: Core, path: seq<byte>, io: SetupIo): (Status, seq<seq<byte>>) {
    if FreeSlot(c.transports) == POOL_SIZE then (NoResource, [])
    else if io.socket.SocketFails? || !io.socket.fcntlOk then (IoError, [])
    else if FreeFile(c.files) == |c.files| then (NoResource, [])
    else if path !in io.disk then (FileError, if io.errorSend.SendOk? then [ErrorDatagram()] else [])
    else if |c.table.entries| >= c.table.maxHandlers then (NoResource, [])
    else
      var status := FirstDataStatus(io.next);
      (status, if status == Ok then [DataDatagram(io.disk[path], 1)] else [])
  }

  /** ERROR, code 1, "File not found", NUL. */
  function ErrorDatagram(): seq<byte> {
    [0, 5, 0, 1] + [70, 105, 108, 101, 32, 110, 111, 116, 32, 102, 111, 117, 110, 100] + [0]
  }

  lemma MissingFileIsReported(c: Core, i: nat, io: SetupIo)
    requires WellFormed(c) && i < |c.transfers| && c.transfers[i].initialized && c.transfers[i].state == Rrq
    requires WithSocket(c, i, io.socket).1 == Ok
    requires var c1 := WithSocket(c, i, io.socket).0;
             WithFile(c1, i, io.disk).1 != Ok &&
             var c2 := WithFile(c1, i, io.disk).0;
             c2.transfers[i].transport.Some? && SocketReady(c2.transports[c2.transfers[i].transport.value].transport)
    ensures var s2 := WithFile(WithSocket(c, i, io.socket).0, i, io.disk).1;
            (Process(c, i, io).status, Process(c, i, io).sent) ==
            (s2, if s2 == FileError && io.errorSend.SendOk? then [ErrorDatagram()] else [])
  {
    hide WithSocket, WithFile, WithRegistration;
    assert NOT_FOUND == ErrorDatagram();
  }

  lemma SetupAnswers(s: State, c: Core, i: nat, io: SetupIo)
    requires Owned(s) && FreshSocket(s.core, io.socket)
    requires Leased(s.core, c, i) && Ready(c.transfers[i])
    ensures (Process(c, i, io).status, Process(c, i, io).sent) ==
            SetupAnswer(c, PathOf(c.transfers[i].filename, c.maxFilename), io)
  {
    hide FilesOwned, TableOwned, TransportsOwned, Settled;
    OwnedTableIsInitialized(s);
    hide PathOf, NOT_FOUND, FreeFile, FreeSlot, WithSocket, WithFile, WithRegistration, WithFirstData, IndexOf;
    hide ErrorDatagram, DataDatagram, FirstDataStatus;
    SocketReport(c, i, io.socket);
    SocketStage(s.core, c, i, io.socket);
    var (c1, s1) := WithSocket(c, i, io.socket);
    if s1 == Ok {
      FileReport(c1, i, io.disk);
      FileStage(s.core, c1, i, io.disk);
      var (c2, s2) := WithFile(c1, i, io.disk);
      if s2 != Ok {
        MissingFileIsReported(c, i, io);
      } else {
        FreshIsUnregistered(s, io.socket.fd);
        RegistrationReport(c2, i);
        RegistrationStage(s.core, c2, i);
        var (c3, s3) := WithRegistration(c2, i);
        if s3 == Ok {
          FirstDataReport(c3, i, io.disk[PathOf(c.transfers[i].filename, c.maxFilename)], io.next);
        }
      }
    }
  }

  ghost predicate NoTransfers(s: State) {
    forall i :: 0 <= i < |s.core.transfers| ==> !s.core.transfers[i].inUse
  }

  /** A running server without transfers holds one socket, one table entry and no file. */
  lemma IdleServerHoldsOneSocket(s: State)
    requires Owned(s) && s.server.running && NoTransfers(s)
    ensures FreeSlot(s.core.transports) < POOL_SIZE
    ensures |s.core.table.entries| == 1
    ensures forall m :: 0 <= m < |s.core.files| ==> !s.core.files[m].inUse
  {
    assert forall i :: 0 <= i < |s.core.transfers| ==> Settled(s.core.transfers[i]);
    var k := s.server.transport.value;
    assert Held(s, ServerCallback) == Some(k);
    assert !s.core.transports[1 - k].used;
    var entries := s.core.table.entries;
    assert |entries| >= 2 ==> entries[0].fd != entries[1].fd;
    forall a | 0 <= a < |entries| ensures entries[a].fd == s.core.transports[k].transport.fd {
      assert EntryOwned(s, entries[a]);
    }
    var e :| e in entries && e.callback == ServerCallback;
  }

  /** A name that cannot leave the served directory: it is not empty, "." or "..", and has neither
      a slash nor a backslash. */
  ghost predicate SafeName(name: seq<byte>) {
    && name != [] && name != [46] && name != [46, 46]
    && forall k :: 0 <= k < |name| ==> name[k] != 47 && name[k] != 92
  }

  lemma NamesAreScreened(name: seq<byte>)
    ensures FilenameValid(name) <==> SafeName(name)
  {
  }

  /** No transfer exists, there is room for one, the datagram is a well-formed read request for
      a valid name of a file that can be opened, and no system call fails. */
  ghost predicate Acceptable(s: State, data: seq<byte>, io: SetupIo) {
    && NoTransfers(s) && |s.core.transfers| > 0 && s.core.table.maxHandlers >= 2
    && ParseRequest(data).Request? && ParseRequest(data).opcode == RRQ
    && SafeName(ParseRequest(data).filename)
    && |ParseRequest(data).filename| <= s.core.maxFilename
    && ROOT + ParseRequest(data).filename in io.disk
    && io.socket.SocketOpens? && io.socket.fcntlOk
    && io.next.read.ReadOk? && io.next.send.SendOk?
  }

  /** The path opened for a name: "tftp_root/" and the name. */
  function ServedPath(name: seq<byte>): seq<byte> {
    [116, 102, 116, 112, 95, 114, 111, 111, 116, 47] + name
  }

  /** What the server reports and sends for a request, in every owned state: the first of these
      conditions that holds decides. */
  ghost function Answer(s: State, data: seq<byte>, io: SetupIo): (Status, seq<seq<byte>>) {
    if !s.server.running then (InvalidState, [])
    else if ParseRequest(data).BadRequest? then (ParseRequest(data).status, [])
    else if ParseRequest(data).opcode == 2 then (ProtocolError, [])
    else if forall i :: 0 <= i < |s.core.transfers| ==> s.core.transfers[i].inUse then (NoResource, [])
    else
      var name := ParseRequest(data).filename;
      if !SafeName(name) || |name| > s.core.maxFilename then (InvalidArgument, [])
      else if !NoTransfers(s) then (NoResource, [])
      else if io.socket.SocketFails? || !io.socket.fcntlOk then (IoError, [])
      else if ServedPath(name) !in io.disk then (FileError, if io.errorSend.SendOk? then [ErrorDatagram()] else [])
      else if s.core.table.maxHandlers < 2 then (NoResource, [])
      else
        var status := FirstDataStatus(io.next);
        (status, if status == Ok then [DataDatagram(io.disk[ServedPath(name)], 1)] else [])
  }

  lemma CreatedReport(s: State, name: seq<byte>, source: Endpoint)
    requires WellFormedState(s) && FreeTransfer(s.core.transfers) < |s.core.transfers|
    ensures var (c, status) := Created(s.core, name, source);
            var i := FreeTransfer(s.core.transfers);
            status == (if SafeName(name) && |name| <= s.core.maxFilename then Ok else InvalidArgument) &&
            c == s.core.(transfers := c.transfers) &&
            (status == Ok ==> PathOf(c.transfers[i].filename, c.maxFilename) == ServedPath(name))
  {
    hide FilenameValid, SafeName;
    NamesAreScreened(name);
    if |name| <= s.core.maxFilename {
      NamesAreNotTruncated(name, s.core.maxFilename);
    }
  }

  /** While a transfer is in use there is no socket for another. */
  lemma BusySetupAnswer(s: State, c: Core, i: nat, path: seq<byte>, io: SetupIo)
    requires Owned(s) && s.server.running && !NoTransfers(s) && c.transports == s.core.transports
    ensures SetupAnswer(c, path, io) == (NoResource, [])
  {
    hide FilesOwned, TableOwned, TransportsOwned, Settled, FirstDataStatus;
    var j :| 0 <= j < |s.core.transfers| && s.core.transfers[j].inUse;
    assert s.server.transport.Some?;
    BothSlotsTaken(s, j);
  }

  lemma NewTransferAnswers(s: State, name: seq<byte>, source: Endpoint, io: SetupIo)
    requires Owned(s) && FreshSocket(s.core, io.socket) && s.server.running
    requires FreeTransfer(s.core.transfers) < |s.core.transfers|
    requires SafeName(name) && |name| <= s.core.maxFilename
    ensures var (c, status) := Created(s.core, name, source);
            var r := Process(c, FreeTransfer(s.core.transfers), io);
            status == Ok &&
            (r.status, r.sent) ==
            if !NoTransfers(s) then (NoResource, [])
            else if io.socket.SocketFails? || !io.socket.fcntlOk then (IoError, [])
            else if ServedPath(name) !in io.disk then (FileError, if io.errorSend.SendOk? then [ErrorDatagram()] else [])
            else if s.core.table.maxHandlers < 2 then (NoResource, [])
            else
              var first := FirstDataStatus(io.next);
              (first, if first == Ok then [DataDatagram(io.disk[ServedPath(name)], 1)] else [])
  {
    hide FilesOwned, TableOwned, TransportsOwned, Settled, Leased, Ready, Created, Process, PathOf, SafeName;
    hide ErrorDatagram, DataDatagram, FirstDataStatus, ServedPath, FreeTransfer;
    var i := FreeTransfer(s.core.transfers);
    CreatedIsLeased(s, name, source);
    CreatedReport(s, name, source);
    var c := Created(s.core, name, source).0;
    SetupAnswers(s, c, i, io);
    if !NoTransfers(s) {
      BusySetupAnswer(s, c, i, ServedPath(name), io);
    } else {
      IdleServerHoldsOneSocket(s);
    }
  }

  lemma ServeAnswers(s: State, data: seq<byte>, source: Endpoint, io: SetupIo)
    requires Owned(s) && FreshSocket(s.core, io.socket)
    ensures (Serve(s, data, source, io).status, Serve(s, data, source, io).sent) == Answer(s, data, io)
  {
    hide Owned, FreshSocket, ParseRequest, Process, Created, Cleaned, SafeName, NoTransfers;
    hide ErrorDatagram, DataDatagram, FirstDataStatus, ServedPath;
    OwnedIsWellFormed(s);
    var i := FreeTransfer(s.core.transfers);
    if s.server.running && ParseRequest(data).Request? && ParseRequest(data).opcode == 1 && i < |s.core.transfers| {
      var name := ParseRequest(data).filename;
      CreatedReport(s, name, source);
      if SafeName(name) && |name| <= s.core.maxFilename {
        NewTransferAnswers(s, name, source, io);
      }
    }
  }

  /** A running server accepts exactly the acceptable requests. */
  lemma RunningServerAccepts(s: State, data: seq<byte>, source: Endpoint, io: SetupIo)
    requires Owned(s) && FreshSocket(s.core, io.socket) && s.server.running
    ensures Serve(s, data, source, io).status == Ok <==> Acceptable(s, data, io)
  {
    hide Owned, ParseRequest, Serve, SafeName, ErrorDatagram, DataDatagram, FreshSocket;
    ServeAnswers(s, data, source, io);
    if NoTransfers(s) && |s.core.transfers| > 0 {
      assert !s.core.transfers[0].inUse;
    }
  }

  // ---------- what the answer means ----------

  /** Which requests are refused for their name: those for an empty name, ".", "..", a name with a
      slash or a backslash, or one that is too long; an accepted one has a safe name, and the file
      streamed is the one of that name under tftp_root. */
  lemma NamesStayUnderTheRoot(s: State, data: seq<byte>, source: Endpoint, io: SetupIo)
    requires Owned(s) && FreshSocket(s.core, io.socket) && s.server.running
    requires ParseRequest(data).Request? && ParseRequest(data).opcode == 1
    requires exists i :: 0 <= i < |s.core.transfers| && !s.core.transfers[i].inUse
    ensures var r, name := Serve(s, data, source, io), ParseRequest(data).filename;
            r.status == InvalidArgument <==>
            name == [] || name == [46] || name == [46, 46] || 47 in name || 92 in name || |name| > s.core.maxFilename
    ensures var r, name := Serve(s, data, source, io), ParseRequest(data).filename;
            r.status == Ok ==>
              var path := [116, 102, 116, 112, 95, 114, 111, 111, 116, 47] + name;
              47 !in name && 92 !in name && name != [] && name != [46] && name != [46, 46] &&
              path in io.disk && r.sent == [DataDatagram(io.disk[path], 1)]
  {
    hide Owned, ParseRequest, Serve, ErrorDatagram, DataDatagram, FreshSocket;
    ServeAnswers(s, data, source, io);
    var name := ParseRequest(data).filename;
    assert SafeName(name) <==> name != [] && name != [46] && name != [46, 46] && 47 !in name && 92 !in name;
  }

  /** The one answer to a request that is refused: "File not found", from the socket opened for the
      transfer, exactly when a running server without transfers is asked for a safe name that cannot be
      opened, and socket and send succeed. Every other refusal sends nothing. */
  lemma MissingFilesAreReported(s: State, data: seq<byte>, source: Endpoint, io: SetupIo)
    requires Owned(s) && FreshSocket(s.core, io.socket)
    ensures var r := Serve(s, data, source, io);
            r.status != Ok ==>
              r.sent ==
              if && s.server.running && NoTransfers(s) && |s.core.transfers| > 0
                 && ParseRequest(data).Request? && ParseRequest(data).opcode == 1
                 && SafeName(ParseRequest(data).filename) && |ParseRequest(data).filename| <= s.core.maxFilename
                 && io.socket.SocketOpens? && io.socket.fcntlOk
                 && [116, 102, 116, 112, 95, 114, 111, 111, 116, 47] + ParseRequest(data).filename !in io.disk
                 && io.errorSend.SendOk?
              then [[0, 5, 0, 1] + [70, 105, 108, 101, 32, 110, 111, 116, 32, 102, 111, 117, 110, 100] + [0]]
              else []
  {
    hide Owned, ParseRequest, Serve, DataDatagram, FreshSocket, SafeName;
    ServeAnswers(s, data, source, io);
    if NoTransfers(s) && |s.core.transfers| > 0 {
      assert !s.core.transfers[0].inUse;
    }
  }

  /** The server's handler answers only a running server's own socket, when it is readable and has no
      error, and then the datagram cut to 1500 bytes. */
  lemma ServerReadyAnswers(s: State, fd: int, events: EventMask, recv: RecvIo, io: SetupIo)
    requires Owned(s) && FreshSocket(s.core, io.socket)
    ensures var r := ServerReady(s, fd, events, recv, io);
            if && s.server.running && s.core.transports[s.server.transport.value].transport.fd == fd
               && events.read && !events.error && recv.RecvOk?
            then (r.status, r.sent) == Answer(s, recv.datagram[..Min(|recv.datagram|, 1500)], io)
            else r == Served(s, Ok, [])
  {
    hide Serve, Answer, FilesOwned, TableOwned, Settled;
    if s.server.transport.Some? {
      assert Held(s, ServerCallback).Some?;
      if recv.RecvOk? {
        ServeAnswers(s, recv.datagram[..Min(|recv.datagram|, 1500)], recv.source, io);
      }
    }
  }
}
