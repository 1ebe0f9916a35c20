/**
 The transfer module of src/tftp/transfer/tftp_transfer.c as functions on
 values: the sender's state machine, and the steps that take and give back
 the pooled resources it uses.
*/
module Transfers {
  import opened Wire
  import opened Packet
  import opened Transports
  import opened Files
  import opened Reactors

  /** The states some path of the code sets; `Failed` is TFTP_TRANSFER_ERROR. */
  datatype TransferState = Idle | Rrq | WaitAck | Complete | Failed

  /** A transfer object. `packet` is the first `packet_length` bytes of the packet
      buffer; `file` and `transport` are pool indices; `reactor` says the pointer is set. */
  datatype Transfer = Transfer(
    inUse: bool, initialized: bool, registered: bool, finalData: bool,
    state: TransferState, opcode: uint16, block: uint16, expectedBlock: uint16,
    peer: Endpoint, filename: seq<byte>, packet: seq<byte>,
    file: Option<nat>, transport: Option<nat>, reactor: bool)

  const NO_ENDPOINT := Endpoint(0, 0, 0)

  /** Zeroed memory. */
  const RESET := Transfer(false, false, false, false, Idle, 0, 0, 0, NO_ENDPOINT, [], [], None, None, false)

  /** The fields that say what a transfer holds are the same, and so is its peer. */
  predicate SameHoldings(t: Transfer, t': Transfer, f: File, f': File) {
    && t'.inUse == t.inUse && t'.initialized == t.initialized && t'.registered == t.registered
    && t'.reactor == t.reactor && t'.file == t.file && t'.transport == t.transport
    && t'.peer == t.peer
    && f'.inUse == f.inUse && f'.open == f.open && f'.Valid()
  }

  // ---------- the sender's state machine ----------

  /** What the file read and the send report while the next block goes out. */
  datatype NextIo = NextIo(read: ReadIo, send: SendIo)

  datatype Stepped = Stepped(transfer: Transfer, file: File, status: Status, sent: seq<seq<byte>>)

  /** Read the next block and build its DATA packet. */
  function NextBlock(t: Transfer, f: File, io: ReadIo): (r: (Transfer, File, Status))
    requires f.Valid()
    ensures SameHoldings(t, r.0, f, r.1) && r.0.state == t.state
  {
    var (f', status, bytes) := FileRead(f, BLOCK_SIZE, io);
    if status != Ok then (t, f', status)
    else
      var block: uint16 := (t.block + 1) % 65536;
      (t.(block := block, packet := EncodeData(block, bytes), finalData := IsFinalData(|bytes|), expectedBlock := block),
       f', Ok)
  }

  function SendNextData(t: Transfer, f: File, v: Transport, io: NextIo): (r: Stepped)
    requires f.Valid()
    ensures SameHoldings(t, r.transfer, f, r.file)
    ensures r.transfer.state == if r.status == Ok then WaitAck else t.state
  {
    hide NextBlock;
    var (t', f', status) := NextBlock(t, f, io.read);
    if status != Ok then Stepped(t', f', status, [])
    else
      var sendStatus := SendStatus(v, |t'.packet|, io.send);
      if sendStatus != Ok then Stepped(t', f', sendStatus, [])
      else Stepped(t'.(state := WaitAck), f', Ok, [t'.packet])
  }

  /** The RX_PACKET event. */
  function OnPacket(t: Transfer, f: File, v: Transport, data: seq<byte>, io: NextIo): (r: Stepped)
    requires f.Valid()
    ensures SameHoldings(t, r.transfer, f, r.file)
    ensures r.status == Ok ==> r.transfer.state == WaitAck || r.transfer.state == Complete
  {
    hide SendNextData, Parse;
    if !t.initialized then Stepped(t, f, NotInitialized, [])
    else if |data| < HEADER_SIZE then Stepped(t, f, InvalidPacket, [])
    else if t.state != WaitAck then Stepped(t, f, InvalidState, [])
    else match Parse(data)
         case Rejected(status) => Stepped(t, f, status, [])
         case Parsed(p) =>
           if p.opcode != ACK then Stepped(t, f, ProtocolError, [])
           else if p.block != t.expectedBlock then Stepped(t, f, InvalidBlock, [])
           else if t.finalData then Stepped(t.(state := Complete), f, Ok, [])
           else SendNextData(t, f, v, io)
  }

  /** One readiness notice for the transfer's socket. */
  datatype Notice = Notice(fd: int, events: EventMask, recv: RecvIo, next: NextIo)

  /** What the handler leaves behind; `release` says it then releases the transfer. */
  datatype Handled = Handled(transfer: Transfer, file: File, sent: seq<seq<byte>>, release: bool)

  function OnReady(t: Transfer, f: File, v: Transport, n: Notice): (r: Handled)
    requires f.Valid()
    ensures SameHoldings(t, r.transfer, f, r.file)
    ensures r.release ==> r.transfer.state == Complete || r.transfer.state == Failed
    ensures !r.release && (t.state == WaitAck || t.state == Failed) ==>
              r.transfer.state == WaitAck || r.transfer.state == Failed
  {
    hide OnPacket, Received, FdOf;
    if n.fd != FdOf(v) then Handled(t, f, [], false)
    else if n.events.error then Handled(t.(state := Failed), f, [], false)
    else if !n.events.read then Handled(t, f, [], false)
    else
      var (status, data) := Received(v, MAX_PACKET_SIZE, n.recv);
      if status == Busy then Handled(t, f, [], false)
      else if status != Ok then Handled(t.(state := Failed), f, [], false)
      else if n.recv.source != t.peer then Handled(t, f, [], false)
      else
        var r := OnPacket(t, f, v, data, n.next);
        var t' := if r.status != Ok then r.transfer.(state := Failed) else r.transfer;
        Handled(t', r.file, r.sent, t'.state == Complete || t'.state == Failed)
  }

  // ---------- the pools ----------

  /** Everything the static pools and the reactor hold. `maxFilename` is TFTP_MAX_FILENAME_LENGTH. */
  datatype Core = Core(
    transports: seq<Slot>, files: seq<File>, transfers: seq<Transfer>, table: Table, maxFilename: nat)

  /** Pool pointers point into the pools, and a transfer that waits for an ACK has its file and socket. */
  predicate WellFormed(c: Core) {
    && |c.transports| == POOL_SIZE
    && |c.files| == |c.transfers|
    && c.table.Valid()
    && (forall m :: 0 <= m < |c.files| ==> c.files[m].Valid())
    && (forall i :: 0 <= i < |c.transfers| ==> PointersIn(c, c.transfers[i]))
  }

  predicate PointersIn(c: Core, t: Transfer) {
    && (t.file.Some? ==> t.file.value < |c.files|)
    && (t.transport.Some? ==> t.transport.value < |c.transports|)
  }

  function FreeTransfer(transfers: seq<Transfer>): (i: nat)
    ensures i <= |transfers|
    ensures i < |transfers| ==> !transfers[i].inUse
    ensures forall j :: 0 <= j < i ==> transfers[j].inUse
  {
    FirstFree(transfers, (t: Transfer) => t.inUse)
  }

  function SetTransfer(c: Core, i: nat, t: Transfer): Core
    requires i < |c.transfers|
  {
    c.(transfers := c.transfers[i := t])
  }

  /** `snprintf` with "%s" into a buffer of `size` bytes. */
  function Printed(text: seq<byte>, size: nat): seq<byte>
    requires size > 0
  {
    text[..Min(|text|, size - 1)]
  }

  /** The bytes of "tftp_root/". */
  const ROOT: seq<byte> := [116, 102, 116, 112, 95, 114, 111, 111, 116, 47]

  function PathOf(filename: seq<byte>, maxFilename: nat): seq<byte> {
    Printed(ROOT + filename, (maxFilename + 1) + (|ROOT| + 1))
  }

  /** Not empty, not "." or "..", and no slash or backslash. */
  predicate FilenameValid(name: seq<byte>) {
    name != [] && name != [46] && name != [46, 46] && 47 !in name && 92 !in name
  }

  function Started(t: Transfer, opcode: uint16, filename: seq<byte>, peer: Endpoint, maxFilename: nat)
    : (Transfer, Status)
  {
    if !t.initialized then (t, NotInitialized)
    else if !FilenameValid(filename) then (t, InvalidArgument)
    else if |filename| > maxFilename then (t, InvalidArgument)
    else
      var t' := t.(opcode := opcode, peer := peer, reactor := true,
                   filename := Printed(filename, maxFilename + 1),
                   block := 0, expectedBlock := 0, packet := []);
      if opcode == RRQ then (t'.(state := Rrq), Ok)
      else (t'.(state := Failed), ProtocolError)
  }

  // ---------- starting a read transfer ----------

  /** What the system reports while a transfer is set up. `disk` maps each path that can be
      opened for reading to the file's contents. */
  datatype SetupIo = SetupIo(socket: SocketIo, disk: map<seq<byte>, seq<byte>>, errorSend: SendIo, next: NextIo)

  datatype Processed = Processed(core: Core, status: Status, sent: seq<seq<byte>>)

  /** The bytes of "File not found". */
  const NOT_FOUND_TEXT: seq<byte> :=
    [70, 105, 108, 101, 32, 110, 111, 116, 32, 102, 111, 117, 110, 100]

  const NOT_FOUND: seq<byte> := EncodeError(1, NOT_FOUND_TEXT)

  /** Acquire, initialise and open the transfer's own socket. */
  function WithSocket(c: Core, i: nat, io: SocketIo): (r: (Core, Status))
    requires WellFormed(c) && i < |c.transfers|
    ensures WellFormed(r.0) && |r.0.transfers| == |c.transfers|
  {
    var t := c.transfers[i];
    var k := FreeSlot(c.transports);
    if k == POOL_SIZE then (SetTransfer(c, i, t.(transport := None)), NoResource)
    else
      var (v, status) := Opened(Inited(CLEARED, 0, true).0, io);
      (SetTransfer(c, i, t.(transport := Some(k))).(transports := c.transports[k := Slot(true, v)]), status)
  }

  /** Acquire, initialise and open the file object. */
  function WithFile(c: Core, i: nat, disk: map<seq<byte>, seq<byte>>): (r: (Core, Status))
    requires WellFormed(c) && i < |c.transfers|
    ensures WellFormed(r.0) && |r.0.transfers| == |c.transfers|
  {
    var t := c.transfers[i];
    var m := FreeFile(c.files);
    if m == |c.files| then (SetTransfer(c, i, t.(file := None)), NoResource)
    else
      var (f, status) := FileOpened(File(true, false, None), PathOf(t.filename, c.maxFilename), disk);
      (SetTransfer(c, i, t.(file := Some(m))).(files := c.files[m := f]), status)
  }

  const READ_AND_ERROR := EventMask(true, false, true)

  /** Register the transfer's socket with the reactor. */
  function WithRegistration(c: Core, i: nat): (r: (Core, Status))
    requires WellFormed(c) && i < |c.transfers| && c.transfers[i].transport.Some?
    ensures WellFormed(r.0) && |r.0.transfers| == |c.transfers|
  {
    var t := c.transfers[i];
    var fd := FdOf(c.transports[t.transport.value].transport);
    var (table, status) := Registered(c.table, Registration(fd, READ_AND_ERROR, TransferCallback(i)));
    if status != Ok then (c, status)
    else (SetTransfer(c, i, t.(registered := true)).(table := table), Ok)
  }

  /** The transfer's file, or a closed one in its absence: reading either fails. */
  function FileOf(c: Core, t: Transfer): (f: File)
    requires WellFormed(c) && PointersIn(c, t)
    ensures f.Valid()
  {
    if t.file.Some? then c.files[t.file.value] else File(false, false, None)
  }

  /** Write back what a handler run did to the transfer and its file. */
  function Updated(c: Core, i: nat, t: Transfer, f: File): (r: Core)
    requires WellFormed(c) && i < |c.transfers|
    requires SameHoldings(c.transfers[i], t, FileOf(c, c.transfers[i]), f)
    ensures WellFormed(r) && |r.transfers| == |c.transfers|
  {
    c.(transfers := c.transfers[i := t],
       files := if t.file.Some? then c.files[t.file.value := f] else c.files)
  }

  /** Send the first block. */
  function WithFirstData(c: Core, i: nat, io: NextIo): (r: Processed)
    requires WellFormed(c) && i < |c.transfers|
    requires c.transfers[i].transport.Some? && c.transfers[i].file.Some?
    ensures WellFormed(r.core) && |r.core.transfers| == |c.transfers|
  {
    var t := c.transfers[i];
    hide SendNextData;
    var r := SendNextData(t, FileOf(c, t), c.transports[t.transport.value].transport, io);
    Processed(Updated(c, i, r.transfer, r.file), r.status, r.sent)
  }

  function Process(c: Core, i: nat, io: SetupIo): (r: Processed)
    requires WellFormed(c) && i < |c.transfers|
    ensures WellFormed(r.core) && |r.core.transfers| == |c.transfers|
  {
    if !c.transfers[i].initialized then Processed(c, NotInitialized, [])
    else if c.transfers[i].state != Rrq then Processed(c, InvalidState, [])
    else
      var (c1, s1) := WithSocket(c, i, io.socket);
      if s1 != Ok then Processed(c1, s1, [])
      else
        var (c2, s2) := WithFile(c1, i, io.disk);
        if s2 != Ok then
          var v := c2.transports[c2.transfers[i].transport.value].transport;
          var notified := s2 == FileError && SendStatus(v, |NOT_FOUND|, io.errorSend) == Ok;
          Processed(c2, s2, if notified then [NOT_FOUND] else [])
        else
          var (c3, s3) := WithRegistration(c2, i);
          if s3 != Ok then Processed(c3, s3, [])
          else WithFirstData(c3, i, io.next)
  }

  // ---------- giving everything back ----------

  function Cleaned(c: Core, i: nat): (r: Core)
    requires WellFormed(c) && i < |c.transfers|
    ensures WellFormed(r) && |r.transfers| == |c.transfers|
  {
    var t := c.transfers[i];
    Core(
      if t.transport.Some? then c.transports[t.transport.value := Slot(false, CLEARED)] else c.transports,
      if t.file.Some? then c.files[t.file.value := FileClosed(c.files[t.file.value], true).0.(inUse := false)]
      else c.files,
      c.transfers[i := RESET],
      if t.registered && t.reactor && t.transport.Some?
      then Unregistered(c.table, FdOf(c.transports[t.transport.value].transport)).0
      else c.table,
      c.maxFilename)
  }

  /** The handler the reactor calls for transfer `i`. */
  function TransferReady(c: Core, i: nat, n: Notice): (r: Processed)
    requires WellFormed(c) && i < |c.transfers|
    ensures WellFormed(r.core) && |r.core.transfers| == |c.transfers|
  {
    hide OnReady, Cleaned;
    var t := c.transfers[i];
    if t.transport.None? then Processed(c, Ok, [])
    else
      var r := OnReady(t, FileOf(c, t), c.transports[t.transport.value].transport, n);
      var c' := Updated(c, i, r.transfer, r.file);
      Processed(if r.release then Cleaned(c', i) else c', Ok, r.sent)
  }

  // ---------- the transfer object ----------

  method ClearBytes(buffer: array<byte>)
    modifies buffer
    ensures forall k :: 0 <= k < buffer.Length ==> buffer[k] == 0
  {
    forall k | 0 <= k < buffer.Length {
      buffer[k] := 0;
    }
  }

  class TftpTransfer {
    const slot: nat
    var inUse: bool
    var initialized: bool
    var registered: bool
    var finalData: bool
    var state: TransferState
    var opcode: uint16
    var block: uint16
    var expectedBlock: uint16
    var peer: Endpoint
    var filename: seq<byte>
    const packetBuffer: array<byte>
    var packetLength: nat
    var file: TftpFile?
    var transport: UdpTransport?
    var reactor: Reactor?

    ghost predicate Valid()
      reads this
    {
      packetBuffer.Length == MAX_PACKET_SIZE && packetLength <= MAX_PACKET_SIZE
    }

    function Value(): Transfer
      requires Valid()
      reads this, packetBuffer
    {
      Transfer(inUse, initialized, registered, finalData, state, opcode, block, expectedBlock, peer, filename,
               packetBuffer[..packetLength],
               if file == null then None else Some(file.slot),
               if transport == null then None else Some(transport.slot),
               reactor != null)
    }

    constructor (slot: nat)
      ensures Valid() && this.slot == slot && Value() == RESET && fresh(packetBuffer)
      ensures file == null && transport == null && reactor == null
    {
      this.slot := slot;
      inUse, initialized, registered, finalData := false, false, false, false;
      state, opcode, block, expectedBlock := Idle, 0, 0, 0;
      peer, filename := NO_ENDPOINT, [];
      packetBuffer := new byte[MAX_PACKET_SIZE](_ => 0);
      packetLength := 0;
      file, transport, reactor := null, null, null;
    }

    /** `memset` to zero. */
    method Reset()
      requires Valid()
      modifies this, packetBuffer
      ensures Valid() && Value() == RESET
      ensures file == null && transport == null && reactor == null
    {
      ClearBytes(packetBuffer);
      ClearFlags();
      TakeNothing();
      file, transport, reactor := null, null, null;
    }

    method ClearFlags()
      modifies this`inUse, this`initialized, this`registered, this`finalData, this`state
      ensures !inUse && !initialized && !registered && !finalData && state == Idle
    {
      inUse, initialized, registered, finalData := false, false, false, false;
      state := Idle;
    }

    method TakeNothing()
      modifies this`opcode, this`peer, this`filename, this`block, this`expectedBlock, this`packetLength
      ensures opcode == block == expectedBlock == 0 && packetLength == 0
      ensures peer == NO_ENDPOINT && filename == []
    {
      opcode, block, expectedBlock, packetLength := 0, 0, 0, 0;
      peer, filename := NO_ENDPOINT, [];
    }

    method Start(requested: uint16, name: seq<byte>, source: Endpoint, r: Reactor, maxFilename: nat) returns (status: Status)
      requires Valid()
      modifies this`opcode, this`peer, this`reactor, this`filename, this`block, this`expectedBlock, this`packetLength, this`state
      ensures Valid() && (reactor == old(reactor) || reactor == r)
      ensures (Value(), status) == Started(old(Value()), requested, name, source, maxFilename)
    {
      hide FilenameValid, Printed;
      if !initialized {
        return NotInitialized;
      }
      if !FilenameValid(name) {
        return InvalidArgument;
      }
      if |name| > maxFilename {
        return InvalidArgument;
      }
      TakeRequest(requested, Printed(name, maxFilename + 1), source, r);
      if opcode == RRQ {
        state := Rrq;
        return Ok;
      }
      state := Failed;
      return ProtocolError;
    }

    method TakeRequest(requested: uint16, name: seq<byte>, source: Endpoint, r: Reactor)
      requires Valid()
      modifies this`opcode, this`peer, this`reactor, this`filename, this`block, this`expectedBlock, this`packetLength
      ensures Valid() && opcode == requested && peer == source && reactor == r && filename == name
      ensures block == expectedBlock == 0 && packetLength == 0
    {
      opcode := requested;
      peer := source;
      reactor := r;
      filename := name;
      block := 0;
      expectedBlock := 0;
      packetLength := 0;
    }

    /** Read the next block and build its DATA packet in place. */
    method BuildNext(io: ReadIo) returns (status: Status)
      requires Valid() && file != null && file.Value().Valid()
      modifies this`block, this`packetLength, this`finalData, this`expectedBlock, packetBuffer, file
      ensures Valid()
      ensures (Value(), file.Value(), status) == NextBlock(old(Value()), old(file.Value()), io)
    {
      hide FileRead, EncodeData, IsFinalData;
      var payload := new byte[BLOCK_SIZE];
      var bytesRead;
      status, bytesRead := file.ReadInto(payload, io);
      if status != Ok {
        return;
      }
      status := BuildPacket(payload, bytesRead);
    }

    /** Number the payload as the next block and build its DATA packet in place. */
    method BuildPacket(payload: array<byte>, bytesRead: nat) returns (status: Status)
      requires Valid() && payload != packetBuffer && bytesRead <= payload.Length && bytesRead <= BLOCK_SIZE
      modifies this`block, this`packetLength, this`finalData, this`expectedBlock, packetBuffer
      ensures Valid() && status == Ok
      ensures var next := (old(block) + 1) % 65536;
              Value() == old(Value()).(block := next, packet := EncodeData(next, payload[..bytesRead]),
                                       finalData := IsFinalData(bytesRead), expectedBlock := next)
    {
      hide EncodeData, IsFinalData;
      block := (block + 1) % 65536;
      var length;
      status, length := BuildData(block, payload, bytesRead, packetBuffer);
      if status != Ok {
        return;
      }
      packetLength := length;
      finalData := IsFinalData(bytesRead);
      expectedBlock := block;
    }

    method SendNext(io: NextIo) returns (status: Status, sent: seq<seq<byte>>)
      requires Valid() && file != null && transport != null && file.Value().Valid()
      modifies this`block, this`packetLength, this`finalData, this`expectedBlock, this`state, packetBuffer, file
      ensures Valid()
      ensures Stepped(Value(), file.Value(), status, sent) ==
              SendNextData(old(Value()), old(file.Value()), transport.Value(), io)
    {
      hide NextBlock, SendStatus;
      status := BuildNext(io.read);
      if status != Ok {
        return status, [];
      }
      status := SendStatus(transport.Value(), packetLength, io.send);
      if status != Ok {
        return status, [];
      }
      state := WaitAck;
      return Ok, [packetBuffer[..packetLength]];
    }

    /** The RX_PACKET event. */
    method HandlePacket(data: seq<byte>, io: NextIo) returns (status: Status, sent: seq<seq<byte>>)
      requires Valid() && transport != null && (file != null ==> file.Value().Valid())
      requires state == WaitAck ==> file != null
      modifies this`block, this`packetLength, this`finalData, this`expectedBlock, this`state, packetBuffer, file
      ensures Valid()
      ensures var f := if file == null then File(false, false, None) else old(file.Value());
              Stepped(Value(), if file == null then f else file.Value(), status, sent) ==
              OnPacket(old(Value()), f, transport.Value(), data, io)
    {
      hide SendNextData, Parse;
      if !initialized {
        return NotInitialized, [];
      }
      if |data| < HEADER_SIZE {
        return InvalidPacket, [];
      }
      if state != WaitAck {
        return InvalidState, [];
      }
      var parsed := Parse(data);
      if parsed.Rejected? {
        return parsed.status, [];
      }
      if parsed.packet.opcode != ACK {
        return ProtocolError, [];
      }
      if parsed.packet.block != expectedBlock {
        return InvalidBlock, [];
      }
      if finalData {
        state := Complete;
        return Ok, [];
      }
      status, sent := SendNext(io);
    }

    /** The part of the socket handler before any release; `release` asks for one. */
    method HandleReady(notice: Notice) returns (release: bool, sent: seq<seq<byte>>)
      requires Valid() && transport != null && (file != null ==> file.Value().Valid())
      requires state == WaitAck ==> file != null
      modifies this`block, this`packetLength, this`finalData, this`expectedBlock, this`state, packetBuffer, file
      ensures Valid() && file == old(file) && transport == old(transport) && reactor == old(reactor)
      ensures var f := if file == null then File(false, false, None) else old(file.Value());
              Handled(Value(), if file == null then f else file.Value(), sent, release) ==
              OnReady(old(Value()), f, transport.Value(), notice)
    {
      hide OnPacket, Received, FdOf;
      if notice.fd != transport.GetFd() {
        return false, [];
      }
      if notice.events.error {
        state := Failed;
        return false, [];
      }
      if !notice.events.read {
        return false, [];
      }
      release, sent := HandleReadable(notice);
    }

    /** The socket is readable: receive, and handle what arrived. */
    method HandleReadable(notice: Notice) returns (release: bool, sent: seq<seq<byte>>)
      requires Valid() && transport != null && (file != null ==> file.Value().Valid())
      requires state == WaitAck ==> file != null
      requires notice.fd == transport.GetFd() && !notice.events.error && notice.events.read
      modifies this`block, this`packetLength, this`finalData, this`expectedBlock, this`state, packetBuffer, file
      ensures Valid()
      ensures var f := if file == null then File(false, false, None) else old(file.Value());
              Handled(Value(), if file == null then f else file.Value(), sent, release) ==
              OnReady(old(Value()), f, transport.Value(), notice)
    {
      hide OnPacket, Received, FdOf;
      var received := Received(transport.Value(), MAX_PACKET_SIZE, notice.recv);
      var status, data := received.0, received.1;
      if status == Busy {
        return false, [];
      }
      if status != Ok {
        state := Failed;
        return false, [];
      }
      if peer != notice.recv.source {
        return false, [];
      }
      release, sent := TakePacket(data, notice.next);
    }

    /** Handle a datagram of the peer; `release` says that the transfer is over. */
    method TakePacket(data: seq<byte>, io: NextIo) returns (release: bool, sent: seq<seq<byte>>)
      requires Valid() && transport != null && (file != null ==> file.Value().Valid())
      requires state == WaitAck ==> file != null
      modifies this`block, this`packetLength, this`finalData, this`expectedBlock, this`state, packetBuffer, file
      ensures Valid()
      ensures var f := if file == null then File(false, false, None) else old(file.Value());
              var r := OnPacket(old(Value()), f, transport.Value(), data, io);
              Value() == (if r.status != Ok then r.transfer.(state := Failed) else r.transfer) &&
              (if file == null then f else file.Value()) == r.file && sent == r.sent &&
              release == (state == Complete || state == Failed)
    {
      hide OnPacket;
      var status;
      status, sent := HandlePacket(data, io);
      if status != Ok {
        state := Failed;
      }
      release := state == Complete || state == Failed;
    }
  }

  // ---------- the static pools ----------

  method NewTransfers(size: nat) returns (objects: seq<TftpTransfer>)
    ensures |objects| == size && fresh(objects)
    ensures forall k :: 0 <= k < size ==>
              objects[k].slot == k && objects[k].Valid() && objects[k].Value() == RESET &&
              fresh(objects[k].packetBuffer) &&
              objects[k].file == null && objects[k].transport == null && objects[k].reactor == null
    ensures forall j, k :: 0 <= j < k < size ==> objects[j].packetBuffer != objects[k].packetBuffer
  {
    objects := [];
    for i := 0 to size
      invariant |objects| == i && fresh(objects)
      invariant forall k :: 0 <= k < i ==>
                  objects[k].slot == k && objects[k].Valid() && objects[k].Value() == RESET &&
                  fresh(objects[k].packetBuffer) &&
                  objects[k].file == null && objects[k].transport == null && objects[k].reactor == null
      invariant forall j, k :: 0 <= j < k < i ==> objects[j].packetBuffer != objects[k].packetBuffer
    {
      var t := new TftpTransfer(i);
      objects := objects + [t];
    }
  }

  /** The static storage the transfer module works on: its own pool, the two pools it
      acquires from, and the reactor. */
  class Statics {
    const transports: TransportPool
    const files: FilePool
    const pool: seq<TftpTransfer>
    const reactor: Reactor
    const maxFilename: nat

    /** The packet buffers of the pool. */
    ghost function Buffers(): set<object> {
      set x | x in pool :: x.packetBuffer
    }

    ghost predicate PointersOk(t: TftpTransfer)
      reads t
    {
      && t.Valid()
      && (t.file != null ==> t.file in files.pool)
      && (t.transport != null ==> t.transport in transports.pool)
      && (t.reactor != null ==> t.reactor == reactor)
    }

    /** The pools are laid out once and for all. */
    ghost predicate Layout() {
      && transports.Valid() && files.Valid() && |files.pool| == |pool|
      && (forall i :: 0 <= i < |pool| ==> pool[i].slot == i)
      && (forall i, j :: 0 <= i < j < |pool| ==> pool[i].packetBuffer != pool[j].packetBuffer)
    }

    ghost predicate Valid()
      reads reactor, files.pool, pool
    {
      && Layout() && reactor.Valid()
      && (forall m :: 0 <= m < |files.pool| ==> files.pool[m].Value().Valid())
      && (forall i :: 0 <= i < |pool| ==> PointersOk(pool[i]))
    }

    function Transfers(): (r: seq<Transfer>)
      requires Valid()
      reads reactor, files.pool, pool, Buffers()
      ensures |r| == |pool|
      ensures forall i :: 0 <= i < |r| ==> r[i] == pool[i].Value()
    {
      seq(|pool|, i requires 0 <= i < |pool| && pool[i].Valid() reads pool, Buffers() => pool[i].Value())
    }

    function Value(): (c: Core)
      requires Valid()
      reads reactor, reactor.registrations, transports.used, transports.pool, files.pool, pool, Buffers()
      ensures WellFormed(c) && |c.transfers| == |pool|
    {
      Core(transports.Slots(), files.Files(), Transfers(), reactor.Value(), maxFilename)
    }

    constructor (transports: TransportPool, files: FilePool, pool: seq<TftpTransfer>, reactor: Reactor, maxFilename: nat)
      ensures this.transports == transports && this.files == files && this.pool == pool
      ensures this.reactor == reactor && this.maxFilename == maxFilename
    {
      this.transports, this.files, this.pool, this.reactor := transports, files, pool, reactor;
      this.maxFilename := maxFilename;
    }

    /** Of the transfers, only `t` has changed since, and its pointers are still sound. */
    twostate lemma OneTransferChanged(t: TftpTransfer)
      requires old(Valid()) && t in pool && PointersOk(t) && reactor.Valid()
      requires forall m :: 0 <= m < |files.pool| ==> files.pool[m].Value().Valid()
      requires forall x :: x in pool && x != t ==> unchanged(x) && unchanged(x.packetBuffer)
      ensures Valid() && Transfers() == old(Transfers())[t.slot := t.Value()]
    {
      assert forall i :: 0 <= i < |pool| && pool[i] != t ==>
          PointersOk(pool[i]) && pool[i].Value() == old(pool[i].Value());
    }

    /** Of the transfers and files, only `t` and its file have changed since. */
    twostate lemma OneTransferAndItsFileChanged(t: TftpTransfer)
      requires old(Valid()) && t in pool && PointersOk(t) && t.file != null && t.file.Value().Valid()
      requires unchanged(reactor)
      requires forall x :: x in pool && x != t ==> unchanged(x) && unchanged(x.packetBuffer)
      requires forall x :: x in files.pool && x != t.file ==> unchanged(x)
      ensures Valid() && Transfers() == old(Transfers())[t.slot := t.Value()]
      ensures files.Files() == old(files.Files())[t.file.slot := t.file.Value()]
    {
      hide FilePool.Files, Statics.Transfers;
      files.OnlyFileChanged(t.file);
      OneTransferChanged(t);
    }

    /** Pools nobody has used yet are sound. */
    lemma FreshIsValid()
      requires Layout() && reactor.Valid()
      requires forall m :: 0 <= m < |files.pool| ==> files.Files()[m] == File(false, false, None)
      requires forall k :: 0 <= k < |pool| ==>
                 pool[k].Valid() && pool[k].file == null && pool[k].transport == null && pool[k].reactor == null
      ensures Valid()
    {
      assert forall m :: 0 <= m < |files.pool| ==> files.pool[m].Value() == files.Files()[m];
    }

    method AcquireTransfer() returns (status: Status, out: TftpTransfer?)
      requires Valid()
      modifies pool, Buffers()
      ensures Valid() && transports.Slots() == old(transports.Slots()) && files.Files() == old(files.Files())
      ensures reactor.Value() == old(reactor.Value())
      ensures var i := FreeTransfer(old(Transfers()));
              if i == |pool| then status == NoResource && out == null && Transfers() == old(Transfers())
              else
                status == Ok && out == pool[i] && out.file == null && out.transport == null &&
                Transfers() == old(Transfers())[i := RESET.(inUse := true)]
    {
      hide WellFormed, TransportPool.Slots, FilePool.Files, Reactor.Value, Statics.Transfers;
      var i := 0;
      while i < |pool|
        invariant i <= |pool|
        invariant unchanged(pool) && unchanged(Buffers())
        invariant forall j :: 0 <= j < i ==> pool[j].inUse
      {
        if !pool[i].inUse {
          Take(pool[i]);
          return Ok, pool[i];
        }
        i := i + 1;
      }
      return NoResource, null;
    }

    /** Zero a transfer object and mark it used. */
    method Take(t: TftpTransfer)
      requires Valid() && t in pool
      modifies t, t.packetBuffer
      ensures Valid() && transports.Slots() == old(transports.Slots()) && files.Files() == old(files.Files())
      ensures reactor.Value() == old(reactor.Value()) && t.file == null && t.transport == null
      ensures Transfers() == old(Transfers())[t.slot := RESET.(inUse := true)]
    {
      hide WellFormed, TransportPool.Slots, FilePool.Files, Reactor.Value, Statics.Transfers;
      t.Reset();
      t.inUse := true;
      OneTransferChanged(t);
    }

    /** Initialise and start an acquired transfer. */
    method StartTransfer(t: TftpTransfer, filename: seq<byte>, source: Endpoint) returns (status: Status)
      requires Valid() && t in pool && t.Value() == RESET.(inUse := true)
      modifies t
      ensures Valid() && transports.Slots() == old(transports.Slots()) && files.Files() == old(files.Files())
      ensures reactor.Value() == old(reactor.Value())
      ensures Transfers() == old(Transfers())[t.slot := t.Value()]
      ensures (t.Value(), status) ==
              Started(RESET.(inUse := true, initialized := true), RRQ, filename, source, maxFilename)
    {
      hide WellFormed, TransportPool.Slots, FilePool.Files, Reactor.Value, Statics.Transfers, Started;
      t.initialized := true;
      t.state := Idle;
      status := t.Start(RRQ, filename, source, reactor, maxFilename);
      OneTransferChanged(t);
    }

    // Starting a read transfer, one library call at a time.

    method TakeSocket() returns (status: Status, out: UdpTransport?)
      requires Valid()
      modifies transports.used, transports.pool
      ensures Valid() && Transfers() == old(Transfers())
      ensures var k := FreeSlot(old(transports.Slots()));
              if k == POOL_SIZE then
                status == NoResource && out == null && transports.Slots() == old(transports.Slots())
              else
                status == Ok && out == transports.pool[k] &&
                transports.Slots() == old(transports.Slots())[k := Slot(true, CLEARED)]
    {
      hide WellFormed, TransportPool.Slots, Statics.Transfers, FreeSlot;
      status, out := transports.Acquire();
    }

    method PointSocket(t: TftpTransfer, transport: UdpTransport?)
      requires Valid() && t in pool && (transport != null ==> transport in transports.pool)
      modifies t`transport
      ensures Valid() && t.transport == transport
      ensures Transfers() ==
              old(Transfers())[t.slot := old(t.Value()).(transport := if transport == null then None else Some(transport.slot))]
    {
      hide WellFormed, Statics.Transfers;
      t.transport := transport;
      OneTransferChanged(t);
    }

    method AcquireSocket(t: TftpTransfer) returns (status: Status)
      requires Valid() && t in pool
      modifies transports.used, transports.pool, t`transport
      ensures Valid() && files.Files() == old(files.Files()) && reactor.Value() == old(reactor.Value())
      ensures var k := FreeSlot(old(transports.Slots()));
              if k == POOL_SIZE then
                status == NoResource && transports.Slots() == old(transports.Slots()) &&
                Transfers() == old(Transfers())[t.slot := old(t.Value()).(transport := None)]
              else
                status == Ok && t.transport == transports.pool[k] &&
                transports.Slots() == old(transports.Slots())[k := Slot(true, CLEARED)] &&
                Transfers() == old(Transfers())[t.slot := old(t.Value()).(transport := Some(k))]
    {
      hide WellFormed, TransportPool.Slots, FilePool.Files, Reactor.Value, Statics.Transfers, FreeSlot;
      ValueOf(t);
      var transport;
      status, transport := TakeSocket();
      PointSocket(t, transport);
    }

    method InitAndOpenSocket(t: TftpTransfer, io: SocketIo) returns (status: Status)
      requires Valid() && t in pool && t.transport != null && t.transport.Value() == CLEARED
      modifies t.transport
      ensures Valid() && files.Files() == old(files.Files()) && reactor.Value() == old(reactor.Value())
      ensures Transfers() == old(Transfers())
      ensures var k := t.transport.slot;
              transports.Slots() == old(transports.Slots())[k := Slot(transports.used[k], t.transport.Value())]
      ensures (t.transport.Value(), status) == Opened(Inited(CLEARED, 0, true).0, io)
    {
      hide WellFormed, TransportPool.Slots, FilePool.Files, Reactor.Value, Statics.Transfers;
      status := t.transport.Init(0, false);
      if status == Ok {
        status := t.transport.Open(io);
      }
      transports.OnlyTransportChanged(t.transport);
      OneTransferChanged(t);
    }

    method OpenSocket(t: TftpTransfer, io: SocketIo) returns (status: Status)
      requires Valid() && t in pool
      modifies transports.used, transports.pool, t`transport
      ensures Valid() && (Value(), status) == WithSocket(old(Value()), t.slot, io)
      ensures status == Ok ==> t.transport != null
    {
      hide WellFormed, TransportPool.Slots, FilePool.Files, Reactor.Value, Statics.Transfers, FreeSlot;
      ghost var c := Value();
      status := AcquireSocket(t);
      if status == Ok {
        ghost var k := FreeSlot(c.transports);
        assert transports.Slots()[k].used;
        status := InitAndOpenSocket(t, io);
        assert transports.Slots() == c.transports[k := Slot(true, t.transport.Value())];
      }
    }

    method TakeFile() returns (status: Status, out: TftpFile?)
      requires Valid()
      modifies files.pool
      ensures Valid() && Transfers() == old(Transfers())
      ensures var m := FreeFile(old(files.Files()));
              if m == |files.pool| then status == NoResource && out == null && files.Files() == old(files.Files())
              else
                status == Ok && out == files.pool[m] &&
                files.Files() == old(files.Files())[m := File(true, false, None)]
    {
      hide WellFormed, FilePool.Files, Statics.Transfers, FreeFile;
      ghost var before := files.Files();
      FilesAreValid(before);
      status, out := files.Acquire();
      FilesAreValid(files.Files());
    }

    method PointFile(t: TftpTransfer, file: TftpFile?)
      requires Valid() && t in pool && (file != null ==> file in files.pool)
      modifies t`file
      ensures Valid() && t.file == file
      ensures Transfers() ==
              old(Transfers())[t.slot := old(t.Value()).(file := if file == null then None else Some(file.slot))]
    {
      hide WellFormed, Statics.Transfers;
      t.file := file;
      OneTransferChanged(t);
    }

    method AcquireFile(t: TftpTransfer) returns (status: Status)
      requires Valid() && t in pool
      modifies files.pool, t`file
      ensures Valid() && transports.Slots() == old(transports.Slots()) && reactor.Value() == old(reactor.Value())
      ensures var m := FreeFile(old(files.Files()));
              if m == |files.pool| then
                status == NoResource && files.Files() == old(files.Files()) &&
                Transfers() == old(Transfers())[t.slot := old(t.Value()).(file := None)]
              else
                status == Ok && t.file == files.pool[m] &&
                files.Files() == old(files.Files())[m := File(true, false, None)] &&
                Transfers() == old(Transfers())[t.slot := old(t.Value()).(file := Some(m))]
    {
      hide WellFormed, TransportPool.Slots, FilePool.Files, Reactor.Value, Statics.Transfers, FreeFile;
      ValueOf(t);
      var file;
      status, file := TakeFile();
      PointFile(t, file);
    }

    lemma FilesAreValid(values: seq<File>)
      requires values == files.Files()
      ensures (forall m :: 0 <= m < |files.pool| ==> files.pool[m].Value().Valid()) <==>
              forall m :: 0 <= m < |values| ==> values[m].Valid()
    {
      assert forall m :: 0 <= m < |files.pool| ==> files.pool[m].Value() == values[m];
    }

    method InitAndOpenFile(t: TftpTransfer, path: seq<byte>, disk: map<seq<byte>, seq<byte>>) returns (status: Status)
      requires Valid() && t in pool && t.file != null && t.file.Value() == File(true, false, None)
      modifies t.file
      ensures Valid() && transports.Slots() == old(transports.Slots()) && reactor.Value() == old(reactor.Value())
      ensures Transfers() == old(Transfers())
      ensures files.Files() == old(files.Files())[t.file.slot := t.file.Value()]
      ensures (t.file.Value(), status) == FileOpened(File(true, false, None), path, disk)
    {
      hide WellFormed, TransportPool.Slots, FilePool.Files, Reactor.Value, Statics.Transfers;
      status := t.file.Init();
      if status == Ok {
        status := t.file.Open(path, disk);
      }
      files.OnlyFileChanged(t.file);
      OneTransferChanged(t);
    }

    method OpenFile(t: TftpTransfer, disk: map<seq<byte>, seq<byte>>) returns (status: Status)
      requires Valid() && t in pool
      modifies files.pool, t`file
      ensures Valid() && (Value(), status) == WithFile(old(Value()), t.slot, disk)
      ensures status == Ok ==> t.file != null && t.file in files.pool
    {
      hide WellFormed, TransportPool.Slots, FilePool.Files, Reactor.Value, Statics.Transfers, FreeFile;
      ghost var c := Value();
      var path := PathOf(t.filename, maxFilename);
      status := AcquireFile(t);
      if status == Ok {
        ghost var m := FreeFile(c.files);
        status := InitAndOpenFile(t, path, disk);
        assert files.Files() == c.files[m := t.file.Value()];
      }
    }

    method RegisterSocket(t: TftpTransfer) returns (status: Status)
      requires Valid() && t in pool && t.transport != null
      modifies reactor, reactor.registrations, t`registered
      ensures Valid() && (Value(), status) == WithRegistration(old(Value()), t.slot)
    {
      hide WellFormed, TransportPool.Slots, FilePool.Files, Reactor.Value, Statics.Transfers;
      ghost var c := Value();
      assert t.transport.Value() == c.transports[t.transport.slot].transport;
      status := TakeEntry(Registration(t.transport.GetFd(), READ_AND_ERROR, TransferCallback(t.slot)));
      if status == Ok {
        MarkRegistered(t);
      }
    }

    method TakeEntry(registration: Registration) returns (status: Status)
      requires Valid()
      modifies reactor, reactor.registrations
      ensures Valid() && Transfers() == old(Transfers())
      ensures (reactor.Value(), status) == Registered(old(reactor.Value()), registration)
    {
      hide WellFormed, Reactor.Value, Statics.Transfers, Registered;
      status := reactor.Register(registration);
    }

    method MarkRegistered(t: TftpTransfer)
      requires Valid() && t in pool
      modifies t`registered
      ensures Valid() && Transfers() == old(Transfers())[t.slot := old(t.Value()).(registered := true)]
    {
      hide WellFormed, Statics.Transfers;
      t.registered := true;
      OneTransferChanged(t);
    }

    method SendFirst(t: TftpTransfer, io: NextIo) returns (status: Status, sent: seq<seq<byte>>)
      requires Valid() && t in pool && t.transport != null && t.file != null
      modifies t, t.packetBuffer, t.file
      ensures Valid() && Processed(Value(), status, sent) == WithFirstData(old(Value()), t.slot, io)
    {
      hide WellFormed, TransportPool.Slots, FilePool.Files, Reactor.Value, Statics.Transfers, SendNextData;
      status, sent := t.SendNext(io);
      OneTransferAndItsFileChanged(t);
    }

    /** Build the "File not found" packet in the transfer's buffer and send it. */
    method SendNotFound(t: TftpTransfer, io: SendIo) returns (sent: seq<seq<byte>>)
      requires Valid() && t in pool && t.transport != null && t.packetLength == 0
      modifies t.packetBuffer
      ensures Valid() && Value() == old(Value())
      ensures sent == if SendStatus(t.transport.Value(), |NOT_FOUND|, io) == Ok then [NOT_FOUND] else []
    {
      hide WellFormed, TransportPool.Slots, FilePool.Files, Reactor.Value, Statics.Transfers;
      var status, length := BuildError(1, NOT_FOUND_TEXT, t.packetBuffer);
      OneTransferChanged(t);
      if status != Ok {
        return [];
      }
      if SendStatus(t.transport.Value(), length, io) != Ok {
        return [];
      }
      return [t.packetBuffer[..length]];
    }
  
    method TransferProcess(t: TftpTransfer, io: SetupIo) returns (status: Status, sent: seq<seq<byte>>)
      requires Valid() && t in pool && (t.state == Rrq ==> t.packetLength == 0)
      modifies transports.used, transports.pool, files.pool, reactor, reactor.registrations, t, t.packetBuffer
      ensures Valid() && Processed(Value(), status, sent) == Process(old(Value()), t.slot, io)
    {
      hide WellFormed, Statics.Valid, WithSocket, WithFile, WithRegistration, WithFirstData, NOT_FOUND, Statics.Value;
      ValueOf(t);
      if !t.initialized {
        return NotInitialized, [];
      }
      if t.state != Rrq {
        return InvalidState, [];
      }
      status := OpenSocket(t, io.socket);
      if status != Ok {
        return status, [];
      }
      status := OpenFile(t, io.disk);
      if status != Ok {
        sent := [];
        ValueOf(t);
        if status == FileError {
          sent := SendNotFound(t, io.errorSend);
        }
        return status, sent;
      }
      status := RegisterSocket(t);
      if status != Ok {
        return status, [];
      }
      status, sent := SendFirst(t, io.next);
    }

    lemma PoolSlot(i: nat)
      requires Valid() && i < |pool|
      ensures pool[i].slot == i
    {
    }

    /** What `Value` says about one transfer and its socket. */
    lemma ValueOf(t: TftpTransfer)
      requires Valid() && t in pool
      ensures t.Valid() && t.slot < |pool| && pool[t.slot] == t && Value().transfers[t.slot] == t.Value()
      ensures t.transport != null ==>
                t.transport.slot < POOL_SIZE && Value().transports[t.transport.slot].transport == t.transport.Value()
      ensures t.file != null ==>
                t.file.slot < |files.pool| && t.file in files.pool && Value().files[t.file.slot] == t.file.Value()
    {
    }

    // Giving everything back.

    method UnregisterSocket(t: TftpTransfer)
      requires Valid() && t in pool
      modifies reactor, reactor.registrations, t`registered
      ensures Valid() && transports.Slots() == old(transports.Slots()) && files.Files() == old(files.Files())
      ensures reactor.Value() ==
              if old(t.registered) && t.reactor != null && t.transport != null
              then Unregistered(old(reactor.Value()), t.transport.GetFd()).0
              else old(reactor.Value())
      ensures Transfers() == old(Transfers())[t.slot := t.Value()]
    {
      hide WellFormed, TransportPool.Slots, FilePool.Files, Reactor.Value, Statics.Transfers, Unregistered, FdOf;
      if t.registered && t.reactor != null && t.transport != null {
        var _ := reactor.Unregister(t.transport.GetFd());
        t.registered := false;
      }
      OneTransferChanged(t);
    }

    method GiveBackFile(t: TftpTransfer)
      requires Valid() && t in pool
      modifies t.file, t`file
      ensures Valid() && transports.Slots() == old(transports.Slots()) && reactor.Value() == old(reactor.Value())
      ensures files.Files() ==
              if old(t.file) == null then old(files.Files())
              else old(files.Files())[old(t.file).slot := FileClosed(old(t.file.Value()), true).0.(inUse := false)]
      ensures Transfers() == old(Transfers())[t.slot := t.Value()]
    {
      hide WellFormed, TransportPool.Slots, FilePool.Files, Reactor.Value, Statics.Transfers;
      var file := t.file;
      if file != null {
        var closeOk: bool := *;
        var _ := file.Close(closeOk);
        file.Release();
        t.file := null;
        files.OnlyFileChanged(file);
      }
      OneTransferChanged(t);
    }

    method GiveBackSocket(t: TftpTransfer)
      requires Valid() && t in pool
      modifies transports.used, transports.pool, t`transport
      ensures Valid() && files.Files() == old(files.Files()) && reactor.Value() == old(reactor.Value())
      ensures transports.Slots() ==
              if old(t.transport) == null then old(transports.Slots())
              else old(transports.Slots())[old(t.transport).slot := Slot(false, CLEARED)]
      ensures Transfers() == old(Transfers())[t.slot := t.Value()]
    {
      hide WellFormed, TransportPool.Slots, FilePool.Files, Reactor.Value, Statics.Transfers;
      if t.transport != null {
        transports.Release(t.transport);
        t.transport := null;
      }
      OneTransferChanged(t);
    }

    method GiveBackAll(t: TftpTransfer)
      requires Valid() && t in pool
      modifies transports.used, transports.pool, files.pool, reactor, reactor.registrations, t, t.packetBuffer
      ensures Valid() && Transfers() == old(Transfers())[t.slot := t.Value()]
      ensures var c' := Cleaned(old(Value()), t.slot);
              transports.Slots() == c'.transports && files.Files() == c'.files && reactor.Value() == c'.table
    {
      hide WellFormed, TransportPool.Slots, FilePool.Files, Reactor.Value, Statics.Transfers, Statics.Valid;
      hide Unregistered, FileClosed, FdOf;
      ValueOf(t);
      ghost var c := Value();
      UnregisterSocket(t);
      assert Transfers() == c.transfers[t.slot := t.Value()];
      GiveBackFile(t);
      assert Transfers() == c.transfers[t.slot := t.Value()];
      GiveBackSocket(t);
      assert Transfers() == c.transfers[t.slot := t.Value()];
    }

    /** `tftp_transfer_cleanup`: whatever the closes report, all is given back. */
    method Cleanup(t: TftpTransfer)
      requires Valid() && t in pool
      modifies transports.used, transports.pool, files.pool, reactor, reactor.registrations, t, t.packetBuffer
      ensures Valid() && Value() == Cleaned(old(Value()), t.slot)
    {
      hide WellFormed, TransportPool.Slots, FilePool.Files, Reactor.Value, Statics.Transfers, Unregistered, FileClosed;
      GiveBackAll(t);
      ResetOne(t);
    }

    method ResetOne(t: TftpTransfer)
      requires Valid() && t in pool
      modifies t, t.packetBuffer
      ensures Valid() && transports.Slots() == old(transports.Slots()) && files.Files() == old(files.Files())
      ensures reactor.Value() == old(reactor.Value()) && Transfers() == old(Transfers())[t.slot := RESET]
    {
      hide WellFormed, TransportPool.Slots, FilePool.Files, Reactor.Value, Statics.Transfers;
      t.Reset();
      OneTransferChanged(t);
    }

    /** `transfer_udp_handler`, called with the transfer as its context. */
    method TransferUdpHandler(t: TftpTransfer, notice: Notice) returns (sent: seq<seq<byte>>)
      requires Valid() && t in pool && (t.state == WaitAck ==> t.file != null)
      modifies transports.used, transports.pool, files.pool, reactor, reactor.registrations, t, t.packetBuffer
      ensures Valid() && Processed(Value(), Ok, sent) == TransferReady(old(Value()), t.slot, notice)
    {
      hide WellFormed, TransportPool.Slots, FilePool.Files, Reactor.Value, Statics.Transfers, OnReady, Cleaned;
      ValueOf(t);
      if t.transport == null {
        return [];
      }
      var release := HandleOn(t, notice);
      sent := release.1;
      if release.0 {
        Cleanup(t);
      }
    }

    method HandleOn(t: TftpTransfer, notice: Notice) returns (result: (bool, seq<seq<byte>>))
      requires Valid() && t in pool && t.transport != null && (t.state == WaitAck ==> t.file != null)
      modifies t, t.packetBuffer, t.file
      ensures Valid()
      ensures var c := old(Value());
              var r := OnReady(c.transfers[t.slot], FileOf(c, c.transfers[t.slot]),
                               c.transports[c.transfers[t.slot].transport.value].transport, notice);
              result == (r.release, r.sent) && Value() == Updated(c, t.slot, r.transfer, r.file)
    {
      hide WellFormed, TransportPool.Slots, FilePool.Files, Reactor.Value, Statics.Transfers, OnReady;
      ValueOf(t);
      result := HandleObject(t, notice);
    }

    method HandleObject(t: TftpTransfer, notice: Notice) returns (result: (bool, seq<seq<byte>>))
      requires Valid() && t in pool && t.Valid() && t.transport != null && (t.state == WaitAck ==> t.file != null)
      requires t.file != null ==> t.file.Value().Valid()
      modifies t, t.packetBuffer, t.file
      ensures Valid() && t.file == old(t.file) && t.transport == old(t.transport)
      ensures var f := if t.file == null then File(false, false, None) else old(t.file.Value());
              Handled(t.Value(), if t.file == null then f else t.file.Value(), result.1, result.0) ==
              OnReady(old(t.Value()), f, t.transport.Value(), notice)
      ensures Transfers() == old(Transfers())[t.slot := t.Value()]
      ensures files.Files() ==
              if t.file == null then old(files.Files()) else old(files.Files())[t.file.slot := t.file.Value()]
      ensures transports.Slots() == old(transports.Slots()) && reactor.Value() == old(reactor.Value())
    {
      hide WellFormed, TransportPool.Slots, FilePool.Files, Reactor.Value, Statics.Transfers, OnReady;
      var release, sent := t.HandleReady(notice);
      if t.file != null {
        OneTransferAndItsFileChanged(t);
      } else {
        OneTransferChanged(t);
      }
      return (release, sent);
    }
  }

  method NewStatics(size: nat, maxFilename: nat) returns (s: Statics)
    ensures fresh(s) && s.Valid() && fresh(s.reactor) && fresh(s.reactor.registrations)
    ensures fresh(s.transports.pool) && fresh(s.transports.used) && fresh(s.files.pool)
    ensures fresh(s.pool) && fresh(s.Buffers())
    ensures s.transports.Slots() == seq(POOL_SIZE, _ => Slot(false, Transport(false, false, 0, 0, false)))
    ensures s.files.Files() == seq(size, _ => File(false, false, None))
    ensures s.Transfers() == seq(size, _ => RESET)
    ensures s.reactor.Value() == Table(false, [], 0) && s.maxFilename == maxFilename
  {
    hide WellFormed;
    var transports := new TransportPool();
    var files := new FilePool(size);
    var reactor := new Reactor();
    var pool := NewTransfers(size);
    s := new Statics(transports, files, pool, reactor, maxFilename);
    s.FreshIsValid();
  }
}
