/**
 The UDP transport of src/tftp/transport/udp_transport.c: a socket object with
 lifecycle flags, and the static pool of two of them. A pointer into the pool
 is an object whose `slot` is its index.
*/
module Transports {
  import opened Wire

  const POOL_SIZE: nat := 2

  // ---------- a transport as a value ----------

  datatype Transport = Transport(initialized: bool, open: bool, fd: int, localPort: uint16, nonBlocking: bool)

  /** A cleared pool entry. */
  const CLEARED := Transport(false, false, -1, 0, false)

  function Inited(v: Transport, localPort: uint16, nonBlocking: bool): (Transport, Status) {
    if v.initialized then (v, InvalidState)
    else (Transport(true, false, -1, localPort, nonBlocking), Ok)
  }

  function Opened(v: Transport, io: SocketIo): (Transport, Status) {
    if !v.initialized then (v, NotInitialized)
    else if v.open then (v, InvalidState)
    else if io.SocketFails? || (v.nonBlocking && !io.fcntlOk) then (v.(fd := -1), IoError)
    else (v.(fd := io.fd, open := true), Ok)
  }

  function Bound(v: Transport, port: uint16, bindOk: bool): (Transport, Status) {
    if !v.initialized then (v, NotInitialized)
    else if !v.open then (v, InvalidState)
    else if !bindOk then (v, IoError)
    else (v.(localPort := port), Ok)
  }

  function Closed(v: Transport, closeOk: bool): (Transport, Status) {
    if !v.initialized then (v, NotInitialized)
    else if !v.open then (v, Ok)
    else (v.(fd := -1, open := false), if closeOk then Ok else IoError)
  }

  function Deinited(v: Transport, closeOk: bool): (Transport, Status) {
    if !v.initialized then (v, NotInitialized)
    else
      var (closed, status) := Closed(v, closeOk);
      if status != Ok then (closed, status)
      else (closed.(initialized := false, localPort := 0, nonBlocking := false), Ok)
  }

  function FdOf(v: Transport): int {
    if v.initialized && v.open then v.fd else -1
  }

  function SendStatus(v: Transport, length: nat, io: SendIo): Status {
    if !v.initialized then NotInitialized
    else if !v.open then InvalidState
    else if length == 0 then InvalidArgument
    else match io
         case SendOk => Ok
         case SendWouldBlock => Busy
         case SendFails => IoError
  }

  /** The bytes received are cut to the size of the buffer. */
  function Received(v: Transport, bufferSize: nat, io: RecvIo): (r: (Status, seq<byte>))
    ensures r.0 == Ok ==> io.RecvOk?
  {
    if !v.initialized then (NotInitialized, [])
    else if !v.open then (InvalidState, [])
    else if bufferSize == 0 then (InvalidArgument, [])
    else match io
         case RecvWouldBlock => (Busy, [])
         case RecvFails => (IoError, [])
         case RecvOk(datagram, _) => (Ok, datagram[..Min(|datagram|, bufferSize)])
  }

  // ---------- the pool as a value ----------

  datatype Slot = Slot(used: bool, transport: Transport)

  /** The slot `udp_transport_acquire` takes, or the length when both are taken. */
  function FreeSlot(slots: seq<Slot>): (i: nat)
    ensures i <= |slots|
    ensures i < |slots| ==> !slots[i].used
    ensures forall j :: 0 <= j < i ==> slots[j].used
  {
    FirstFree(slots, (slot: Slot) => slot.used)
  }

  // ---------- the objects ----------

  class UdpTransport {
    const slot: nat
    var initialized: bool
    var open: bool
    var fd: int
    var localPort: uint16
    var nonBlocking: bool

    function Value(): Transport
      reads this
    {
      Transport(initialized, open, fd, localPort, nonBlocking)
    }

    /** Zeroed static storage. */
    constructor (slot: nat)
      ensures this.slot == slot && Value() == Transport(false, false, 0, 0, false)
    {
      this.slot := slot;
      initialized, open, fd, localPort, nonBlocking := false, false, 0, 0, false;
    }

    method Clear()
      modifies this
      ensures Value() == CLEARED
    {
      initialized, open, fd, localPort, nonBlocking := false, false, 0, 0, false;
      fd := -1;
    }

    method Init(port: uint16, blocking: bool) returns (status: Status)
      modifies this
      ensures (Value(), status) == Inited(old(Value()), port, !blocking)
    {
      if initialized {
        return InvalidState;
      }
      fd := -1;
      localPort := port;
      nonBlocking := !blocking;
      open := false;
      initialized := true;
      return Ok;
    }

    method Open(io: SocketIo) returns (status: Status)
      modifies this
      ensures (Value(), status) == Opened(old(Value()), io)
    {
      if !initialized {
        return NotInitialized;
      }
      if open {
        return InvalidState;
      }
      if io.SocketFails? {
        fd := -1;
        return IoError;
      }
      fd := io.fd;
      if nonBlocking && !io.fcntlOk {
        fd := -1;
        return IoError;
      }
      open := true;
      return Ok;
    }

    method Bind(port: uint16, bindOk: bool) returns (status: Status)
      modifies this
      ensures (Value(), status) == Bound(old(Value()), port, bindOk)
    {
      if !initialized {
        return NotInitialized;
      }
      if !open {
        return InvalidState;
      }
      if !bindOk {
        return IoError;
      }
      localPort := port;
      return Ok;
    }

    method Close(closeOk: bool) returns (status: Status)
      modifies this
      ensures (Value(), status) == Closed(old(Value()), closeOk)
    {
      if !initialized {
        return NotInitialized;
      }
      if !open {
        return Ok;
      }
      fd := -1;
      open := false;
      return if closeOk then Ok else IoError;
    }

    method Deinit(closeOk: bool) returns (status: Status)
      modifies this
      ensures (Value(), status) == Deinited(old(Value()), closeOk)
    {
      if !initialized {
        return NotInitialized;
      }
      status := Close(closeOk);
      if status != Ok {
        return;
      }
      initialized := false;
      localPort := 0;
      nonBlocking := false;
    }

    function GetFd(): int
      reads this
    {
      FdOf(Value())
    }
  }

  class TransportPool {
    const pool: seq<UdpTransport>
    const used: array<bool>

    ghost predicate Valid() {
      |pool| == POOL_SIZE && used.Length == POOL_SIZE &&
      forall i :: 0 <= i < |pool| ==> pool[i].slot == i
    }

    function Slots(): (r: seq<Slot>)
      requires Valid()
      reads pool, used
      ensures |r| == POOL_SIZE
      ensures forall i :: 0 <= i < |r| ==> r[i] == Slot(used[i], pool[i].Value())
    {
      seq(POOL_SIZE, i requires 0 <= i < POOL_SIZE reads pool, used => Slot(used[i], pool[i].Value()))
    }

    constructor ()
      ensures Valid() && fresh(used) && fresh(pool)
      ensures Slots() == seq(POOL_SIZE, _ => Slot(false, Transport(false, false, 0, 0, false)))
    {
      var first := new UdpTransport(0);
      var second := new UdpTransport(1);
      pool := [first, second];
      used := new bool[POOL_SIZE](_ => false);
    }

    /** Only the object `transport` has changed since. */
    twostate lemma OnlyTransportChanged(transport: UdpTransport)
      requires Valid() && transport in pool
      requires unchanged(used) && forall x :: x in pool && x != transport ==> unchanged(x)
      ensures Slots() == old(Slots())[transport.slot := Slot(used[transport.slot], transport.Value())]
    {
      forall i | 0 <= i < |pool| && pool[i] != transport ensures pool[i].Value() == old(pool[i].Value()) {
        assert pool[i] in pool;
      }
    }

    method Acquire() returns (status: Status, out: UdpTransport?)
      requires Valid()
      modifies used, pool
      ensures var k := FreeSlot(old(Slots()));
              if k == POOL_SIZE then status == NoResource && out == null && Slots() == old(Slots())
              else status == Ok && out == pool[k] && Slots() == old(Slots())[k := Slot(true, CLEARED)]
    {
      var i := 0;
      while i < POOL_SIZE
        invariant i <= POOL_SIZE
        invariant unchanged(used) && forall t :: t in pool ==> unchanged(t)
        invariant forall j :: 0 <= j < i ==> used[j]
      {
        if !used[i] {
          used[i] := true;
          pool[i].Clear();
          return Ok, pool[i];
        }
        i := i + 1;
      }
      return NoResource, null;
    }

    /** Whatever `close` reports, the slot ends cleared and free. */
    method Release(transport: UdpTransport)
      requires Valid() && transport in pool
      modifies used, pool
      ensures Slots() == old(Slots())[transport.slot := Slot(false, CLEARED)]
    {
      var i := 0;
      while i < POOL_SIZE
        invariant i <= POOL_SIZE
        invariant unchanged(used) && forall t :: t in pool ==> unchanged(t)
        invariant forall j :: 0 <= j < i ==> pool[j] != transport
      {
        if transport == pool[i] {
          if used[i] {
            var closeOk: bool := *;
            var _ := transport.Deinit(closeOk);
          }
          transport.Clear();
          used[i] := false;
          return;
        }
        i := i + 1;
      }
    }

    /** The three calls that end a socket's life, whatever each of them reports. */
    method CloseAndRelease(transport: UdpTransport)
      requires Valid() && transport in pool
      modifies used, pool
      ensures Slots() == old(Slots())[transport.slot := Slot(false, CLEARED)]
    {
      var closeOk: bool := *;
      var _ := transport.Close(closeOk);
      var _ := transport.Deinit(closeOk);
      OnlyTransportChanged(transport);
      Release(transport);
    }
  }

  // ---------- the life of a socket ----------

  /** When each call succeeds. Opening needs an initialised, closed socket, binding an open one; an
      open socket is closed whatever `close` reports, and only then forgets its configuration. */
  lemma SocketCallsSucceedWhen(v: Transport, port: uint16, nonBlocking: bool, io: SocketIo, ok: bool)
    ensures Inited(v, port, nonBlocking).1 == Ok <==> !v.initialized
    ensures Opened(v, io).1 == Ok <==>
            v.initialized && !v.open && io.SocketOpens? && (v.nonBlocking ==> io.fcntlOk)
    ensures Bound(v, port, ok).1 == Ok <==> v.initialized && v.open && ok
    ensures Closed(v, ok).1 == Ok <==> v.initialized && (v.open ==> ok)
    ensures Deinited(v, ok).1 == Ok <==> v.initialized && (v.open ==> ok)
    ensures v.initialized ==> !Closed(v, ok).0.open && !Deinited(v, ok).0.open
    ensures v.initialized && v.open ==> Closed(v, ok).0.fd == Deinited(v, ok).0.fd == -1
    ensures Deinited(v, ok).1 == Ok ==>
              !Deinited(v, ok).0.initialized && Deinited(v, ok).0.localPort == 0 && !Deinited(v, ok).0.nonBlocking
    ensures Deinited(v, ok).1 != Ok ==> Deinited(v, ok).0 == Closed(v, ok).0
  {
  }

  /** A send needs an open socket and something to send, a receive an open socket and room; a call
      that would block is told from one that failed. */
  lemma TransfersSucceedWhen(v: Transport, length: nat, send: SendIo, recv: RecvIo)
    ensures SendStatus(v, length, send) == Ok <==> v.initialized && v.open && length > 0 && send.SendOk?
    ensures SendStatus(v, length, send) == Busy <==> v.initialized && v.open && length > 0 && send.SendWouldBlock?
    ensures Received(v, length, recv).0 == Ok <==> v.initialized && v.open && length > 0 && recv.RecvOk?
    ensures Received(v, length, recv).0 == Busy <==> v.initialized && v.open && length > 0 && recv.RecvWouldBlock?
    ensures Received(v, length, recv).0 == Ok ==>
              Received(v, length, recv).1 <= recv.datagram &&
              (|recv.datagram| <= length ==> Received(v, length, recv).1 == recv.datagram) &&
              (|recv.datagram| > length ==> |Received(v, length, recv).1| == length)
  {
  }

  /** Initialised, opened, bound and deinitialised, a socket has taken what it was given and lost it again. */
  lemma SocketLifeCycle(v: Transport, port: uint16, bound: uint16, nonBlocking: bool, fd: nat)
    requires !v.initialized
    ensures var up := Opened(Inited(v, port, nonBlocking).0, SocketOpens(fd, true)).0;
            up == Transport(true, true, fd, port, nonBlocking) &&
            Bound(up, bound, true).0 == Transport(true, true, fd, bound, nonBlocking) &&
            Deinited(Bound(up, bound, true).0, true).0 == CLEARED
    ensures CLEARED.fd == -1 && !CLEARED.initialized && !CLEARED.open
    ensures FdOf(Opened(Inited(v, port, nonBlocking).0, SocketOpens(fd, true)).0) == fd && FdOf(v) == -1
    ensures v.open ==> FdOf(v.(initialized := true)) == v.fd
    ensures !v.open ==> FdOf(v.(initialized := true)) == -1
  {
  }
}
