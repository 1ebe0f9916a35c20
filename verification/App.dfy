/**
 How the program comes up: the static storage, and the initialisation of the
 reactor and the server in src/tftp/app/tftp_app.c, which lead to the states every
 run starts from.
*/
module App {
  import opened Wire
  import opened Transports
  import opened Files
  import opened Reactors
  import opened Transfers
  import opened Servers
  import opened Runs

  /** The static storage, with the reactor initialised for 16 handlers. */
  method BootStatics(size: nat, maxFilename: nat) returns (s: Statics)
    ensures fresh(s) && s.Valid() && fresh(s.reactor) && fresh(s.reactor.registrations)
    ensures fresh(s.transports.pool) && fresh(s.transports.used) && fresh(s.files.pool)
    ensures fresh(s.pool) && fresh(s.Buffers())
    ensures s.transports.Slots() == seq(POOL_SIZE, _ => Slot(false, Transport(false, false, 0, 0, false)))
    ensures s.files.Files() == seq(size, _ => File(false, false, None))
    ensures s.Transfers() == seq(size, _ => RESET)
    ensures s.reactor.Value() == Table(true, [], MAX_HANDLERS) && s.maxFilename == maxFilename
  {
    hide WellFormed, TransportPool.Slots, FilePool.Files;
    s := NewStatics(size, maxFilename);
    var _ := s.reactor.Init(16);
  }

  lemma UnusedIsInitial(s: State, size: nat)
    requires WellFormedState(s)
    requires s.core.transports == seq(POOL_SIZE, _ => Slot(false, Transport(false, false, 0, 0, false)))
    requires s.core.files == seq(size, _ => File(false, false, None)) && s.core.transfers == seq(size, _ => RESET)
    requires s.core.table == Table(true, [], MAX_HANDLERS)
    requires s.server == Server(true, false, false, s.server.port, s.server.maxTransfers, None, true)
    ensures Initial(s)
  {
  }

  /** The program over storage for `size` transfers: its server, initialised unless the port is 0. */
  method Boot(size: nat, maxFilename: nat, port: uint16, maxTransfers: nat) returns (status: Status, server: TftpServer)
    ensures fresh(server) && server.Valid()
    ensures fresh(server.statics.transports.used) && fresh(server.statics.transports.pool)
    ensures fresh(server.statics.files.pool) && fresh(server.statics.pool) && fresh(server.statics.Buffers())
    ensures fresh(server.statics.reactor) && fresh(server.statics.reactor.registrations)
    ensures status == if port == 0 then InvalidArgument else Ok
    ensures server.Value().core.table == Table(true, [], 16)
    ensures |server.Value().core.transfers| == size && server.Value().core.maxFilename == maxFilename
    ensures status == Ok ==> Initial(server.Value()) && server.Value().server.port == port
  {
    hide WellFormed, Initial, Statics.Valid, Statics.Transfers, TransportPool.Slots, FilePool.Files, Reactor.Value, Statics.Buffers;
    var statics := BootStatics(size, maxFilename);
    server := new TftpServer(statics);
    status := server.Init(port, maxTransfers, statics.reactor);
    if status == Ok {
      UnusedIsInitial(server.Value(), size);
    }
  }
}
