/**
 Types shared by every module: bytes, 16-bit words, the status vocabulary of
 src/tftp/error/tftp_error.h, UDP endpoints, and the outcomes the operating
 system can report for a socket, a send or a receive.
*/
module Wire {

  type byte = x: int | 0 <= x < 256
  type uint16 = x: int | 0 <= x < 65536

  const BLOCK_SIZE: nat := 512
  const HEADER_SIZE: nat := 4
  const MAX_PACKET_SIZE: nat := 516

  datatype Option<+T> = None | Some(value: T)

  datatype Status =
    | Ok
    | InvalidArgument
    | NotInitialized
    | Busy
    | Timeout
    | InvalidPacket
    | InvalidOpcode
    | InvalidBlock
    | FileError
    | NoResource
    | ProtocolError
    | InvalidState
    | IoError

  /** The three fields of `sockaddr_in` that identify a peer. */
  datatype Endpoint = Endpoint(family: nat, address: nat, port: uint16)

  /** What `socket` and the two `fcntl` calls after it report. */
  datatype SocketIo = SocketFails | SocketOpens(fd: nat, fcntlOk: bool)

  /** What `sendto` reports. A short count is reported as a failure. */
  datatype SendIo = SendOk | SendWouldBlock | SendFails

  /** What `recvfrom` reports. */
  datatype RecvIo = RecvWouldBlock | RecvFails | RecvOk(datagram: seq<byte>, source: Endpoint)

  /** The reactor's event mask, one field a bit. */
  datatype EventMask = EventMask(read: bool, write: bool, error: bool)

  function Min(a: nat, b: nat): nat {
    if a <= b then a else b
  }

  /** What `fread` reports: everything asked for that the file still has, or an
      error after `consumed` bytes at most. */
  datatype ReadIo = ReadOk | ReadFails(consumed: nat)

  /** The least index of an item that is not busy, or the length when there is none. */
  function FirstFree<T>(items: seq<T>, busy: T -> bool): (i: nat)
    ensures i <= |items|
    ensures i < |items| ==> !busy(items[i])
    ensures forall j :: 0 <= j < i ==> busy(items[j])
  {
    if items == [] || !busy(items[0]) then 0 else 1 + FirstFree(items[1..], busy)
  }
}
