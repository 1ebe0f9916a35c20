/**
 Exactly when a reactor pass over the real handlers calls what it owes the table
 it polled. It does not in two situations, and both can be reached: a handler
 that unregisters itself makes the pass skip the next entry, and a request
 accepted during the pass registers an entry that is paired with events the
 poll never reported.
*/
module Pairing {
  import opened Wire
  import opened Packet
  import opened Transports
  import opened Files
  import opened Reactors
  import opened ReactorLaws
  import opened Transfers
  import opened Servers
  import opened Ownership
  import opened Requests
  import opened SenderStream
  import opened Runs
  import opened EventLoop
  import opened LegacyClient
  import opened LegacyLaws

  /** The handler call an event is, if it is one. */
  function CallOf(e: Event): seq<Call> {
    match e
    case ServerNotified(fd, events, _, _) => [Call(fd, events, ServerCallback)]
    case TransferNotified(slot, notice) => [Call(notice.fd, notice.events, TransferCallback(slot))]
    case _ => []
  }

  function CallsOf(events: seq<Event>): seq<Call> {
    if events == [] then [] else CallOf(events[0]) + CallsOf(events[1..])
  }

  /** The handler calls of the pass from index `i` on. */
  function PassCalls(s: State, revents: seq<PollEvents>, i: nat, ios: seq<HandlerIo>): seq<Call>
    requires |revents| == |ios| == MAX_HANDLERS && PassPossible(s, revents, i, ios)
  {
    CallsOf(Pass(s, revents, i, ios).1)
  }

  // ---------- the table of an owned state ----------

  ghost predicate CallbackLive(s: State, callback: Callback) {
    match callback
    case ServerCallback => s.server.running
    case TransferCallback(i) => i < |s.core.transfers| && s.core.transfers[i].inUse
  }

  lemma LiveIsHeld(s: State, callback: Callback)
    requires Owned(s)
    ensures CallbackLive(s, callback) <==> Held(s, callback).Some?
  {
    match callback {
      case ServerCallback =>
      case TransferCallback(i) =>
        if i < |s.core.transfers| {
          assert Settled(s.core.transfers[i]);
        }
    }
  }

  /** Each live owner has one entry, and with one transfer there are at most two. */
  lemma AtMostTwoEntries(s: State)
    requires Owned(s) && AtMostOneTransfer(s)
    ensures var entries := s.core.table.entries;
            |entries| <= 2 &&
            (|entries| == 2 ==> entries[0].callback != entries[1].callback) &&
            (forall e :: e in entries ==> CallbackLive(s, e.callback)) &&
            (forall o :: CallbackLive(s, o) ==> exists e :: e in entries && e.callback == o)
  {
    hide FilesOwned, TransportsOwned, Settled;
    var entries := s.core.table.entries;
    var firstThree := if |entries| > 2 then [entries[0], entries[1], entries[2]] else entries;
    forall o ensures CallbackLive(s, o) <==> Held(s, o).Some? {
      LiveIsHeld(s, o);
    }
    forall a, b | 0 <= a < b < |entries| ensures entries[a].callback != entries[b].callback {
      assert EntryOwned(s, entries[a]) && EntryOwned(s, entries[b]);
    }
    forall e | e in entries ensures CallbackLive(s, e.callback) {
      assert EntryOwned(s, e);
    }
    forall a, b | 0 <= a < b < |entries|
      ensures entries[a].callback == ServerCallback || entries[b].callback == ServerCallback
    {
      assert CallbackLive(s, entries[a].callback) && CallbackLive(s, entries[b].callback);
    }
  }

  // ---------- what one handler call does to the table ----------

  /** The call makes the server accept a request. */
  ghost predicate Admits(s: State, events: EventMask, io: HandlerIo) {
    s.server.running && events.read && !events.error && io.recv.RecvOk? &&
    Acceptable(s, io.recv.datagram[..Min(|io.recv.datagram|, RX_BUFFER_SIZE)], io.setup)
  }

  /** The call makes transfer `slot` end. */
  ghost predicate Expels(s: State, slot: nat, fd: int, events: EventMask, io: HandlerIo)
    requires WellFormedState(s)
  {
    slot < |s.core.transfers| && s.core.transfers[slot].transport.Some? &&
    Ends(s.core.transfers[slot], s.core.transports[s.core.transfers[slot].transport.value].transport,
         Notice(fd, events, io.recv, io.next))
  }

  function NewEntry(s: State, io: HandlerIo): Registration
    requires io.setup.socket.SocketOpens?
  {
    Registration(io.setup.socket.fd, READ_AND_ERROR, TransferCallback(FreeTransfer(s.core.transfers)))
  }

  /** The server's handler appends the new transfer's entry when it accepts, and otherwise keeps the table. */
  lemma ServerCallStep(s: State, e: Registration, events: EventMask, io: HandlerIo)
    requires Owned(s) && e in s.core.table.entries && e.callback == ServerCallback
    requires Possible(s, EventOf(e, events, io))
    ensures var s' := Step(s, EventOf(e, events, io));
            if Admits(s, events, io) then
              s'.core.table == s.core.table.(entries := s.core.table.entries + [NewEntry(s, io)]) &&
              FreeTransfer(s.core.transfers) < |s.core.transfers| &&
              s'.core.transfers[FreeTransfer(s.core.transfers)].inUse
            else
              s'.core.table == s.core.table
  {
    hide Serve, Acceptable, FilesOwned, Settled, NoTransfers;
    assert EntryOwned(s, e);
    var v := s.core.transports[s.server.transport.value].transport;
    assert OpenSocket(v) && e.fd == FdOf(v) && s.server.running;
    if events.read && !events.error && io.recv.RecvOk? {
      var data := io.recv.datagram[..Min(|io.recv.datagram|, RX_BUFFER_SIZE)];
      RunningServerAccepts(s, data, io.recv.source, io.setup);
      if Serve(s, data, io.recv.source, io.setup).status == Ok {
        AcceptedRequest(s, data, io.recv.source, io.setup);
      } else {
        FailedRequestsLeaveNoTrace(s, data, io.recv.source, io.setup);
      }
    }
  }

  /** A transfer's handler removes its own entry when it ends the transfer, and otherwise keeps the table. */
  lemma TransferCallStep(s: State, e: Registration, slot: nat, events: EventMask, io: HandlerIo)
    requires Owned(s) && e in s.core.table.entries && e.callback == TransferCallback(slot)
    requires Possible(s, EventOf(e, events, io))
    ensures var s' := Step(s, EventOf(e, events, io));
            s'.core.table ==
            if Expels(s, slot, e.fd, events, io) then
              s.core.table.(entries := Without(s.core.table.entries, e.fd))
            else s.core.table
  {
    hide OnReady, Ends, Unregistered, Without;
    assert EntryOwned(s, e);
    assert Settled(s.core.transfers[slot]);
    var t := s.core.transfers[slot];
    var v := s.core.transports[t.transport.value].transport;
    assert OpenSocket(v) && e.fd == FdOf(v);
    ReleasedExactlyWhen(t, FileOf(s.core, t), v, Notice(e.fd, events, io.recv, io.next));
    OwnerIsRegistered(s, TransferCallback(slot));
  }

  // ---------- the pass, entry by entry ----------

  lemma QuietIndex(s: State, revents: seq<PollEvents>, i: nat, ios: seq<HandlerIo>)
    requires |revents| == |ios| == MAX_HANDLERS && PassPossible(s, revents, i, ios)
    requires i < |s.core.table.entries| && FromPollEvents(revents[i]) == NO_EVENTS
    ensures PassPossible(s, revents, i + 1, ios)
    ensures PassCalls(s, revents, i, ios) == PassCalls(s, revents, i + 1, ios)
    ensures Last(Pass(s, revents, i, ios).0) == Last(Pass(s, revents, i + 1, ios).0)
  {
  }

  lemma CalledIndex(s: State, revents: seq<PollEvents>, i: nat, ios: seq<HandlerIo>)
    requires |revents| == |ios| == MAX_HANDLERS && PassPossible(s, revents, i, ios)
    requires i < |s.core.table.entries| && FromPollEvents(revents[i]) != NO_EVENTS
    ensures var e := s.core.table.entries[i];
            var event := EventOf(e, FromPollEvents(revents[i]), ios[i]);
            Possible(s, event) && PassPossible(Step(s, event), revents, i + 1, ios) &&
            PassCalls(s, revents, i, ios) ==
            [Call(e.fd, FromPollEvents(revents[i]), e.callback)] + PassCalls(Step(s, event), revents, i + 1, ios) &&
            Last(Pass(s, revents, i, ios).0) == Last(Pass(Step(s, event), revents, i + 1, ios).0)
  {
    hide FromPollEvents, Step, EventOf, CallOf, Possible;
    var e := s.core.table.entries[i];
    var event := EventOf(e, FromPollEvents(revents[i]), ios[i]);
    CallOfEvent(e, FromPollEvents(revents[i]), ios[i]);
    var rest := Pass(Step(s, event), revents, i + 1, ios);
    assert Pass(s, revents, i, ios) == ([s] + rest.0, [event] + rest.1);
    assert ([event] + rest.1)[1..] == rest.1;
  }

  lemma CallOfEvent(e: Registration, events: EventMask, io: HandlerIo)
    ensures CallOf(EventOf(e, events, io)) == [Call(e.fd, events, e.callback)]
  {
  }

  lemma FinishedPass(s: State, revents: seq<PollEvents>, i: nat, ios: seq<HandlerIo>)
    requires |revents| == |ios| == MAX_HANDLERS && PassPossible(s, revents, i, ios)
    requires i >= |s.core.table.entries|
    ensures PassCalls(s, revents, i, ios) == [] && Last(Pass(s, revents, i, ios).0) == s
  {
  }

  /** The last call of a pass over a table that has no entry behind index `i`: whatever the
      handler does to its own entry, it is the call owed, unless it is the server's and admits
      a transfer. */
  lemma LastIndex(s: State, revents: seq<PollEvents>, i: nat, ios: seq<HandlerIo>)
    requires |revents| == |ios| == MAX_HANDLERS && PassPossible(s, revents, i, ios)
    requires Owned(s) && |s.core.table.entries| == i + 1
    requires s.core.table.entries[i].callback == ServerCallback ==> !Admits(s, FromPollEvents(revents[i]), ios[i])
    ensures PassCalls(s, revents, i, ios) == Owed(s.core.table.entries, revents, i)
  {
    hide FromPollEvents, Admits, Expels, Step, Owned;
    var e := s.core.table.entries[i];
    var events := FromPollEvents(revents[i]);
    if events == NO_EVENTS {
      QuietIndex(s, revents, i, ios);
      FinishedPass(s, revents, i + 1, ios);
    } else {
      CalledIndex(s, revents, i, ios);
      var s' := Step(s, EventOf(e, events, ios[i]));
      match e.callback {
        case ServerCallback => ServerCallStep(s, e, events, ios[i]);
        case TransferCallback(slot) => TransferCallStep(s, e, slot, events, ios[i]);
      }
      assert |s'.core.table.entries| <= i + 1;
      FinishedPass(s', revents, i + 1, ios);
    }
  }

  // ---------- exactly when a pass is paired ----------

  /** The first entry is a transfer whose handler ends it, and the entry behind it has events. */
  ghost predicate SkipsAnEntry(s: State, revents: seq<PollEvents>, ios: seq<HandlerIo>)
    requires |revents| == |ios| == MAX_HANDLERS && WellFormedState(s)
  {
    var entries := s.core.table.entries;
    && |entries| == 2 && entries[0].callback.TransferCallback?
    && Expels(s, entries[0].callback.slot, entries[0].fd, FromPollEvents(revents[0]), ios[0])
    && FromPollEvents(revents[1]) != NO_EVENTS
  }

  /** The only entry is the server, it accepts a request, and the place in the poll array
      behind it, which the poll never saw, happens to hold events. */
  ghost predicate MeetsANewcomer(s: State, revents: seq<PollEvents>, ios: seq<HandlerIo>)
    requires |revents| == |ios| == MAX_HANDLERS
  {
    var entries := s.core.table.entries;
    && |entries| == 1 && entries[0].callback == ServerCallback
    && Admits(s, FromPollEvents(revents[0]), ios[0])
    && FromPollEvents(revents[1]) != NO_EVENTS
  }

  /** From every owned state with at most one transfer, a pass makes exactly the calls it owes
      if and only if it neither skips an entry nor meets a newcomer. In the first case the entry
      skipped is not called at all; in the second the new transfer's handler is called with
      events nobody reported. */
  lemma PassIsPairedExactlyWhen(s: State, revents: seq<PollEvents>, ios: seq<HandlerIo>)
    requires |revents| == |ios| == MAX_HANDLERS && PassPossible(s, revents, 0, ios)
    requires Owned(s) && AtMostOneTransfer(s)
    ensures var owed := Owed(s.core.table.entries, revents, 0);
            var calls := PassCalls(s, revents, 0, ios);
            (calls == owed <==> !SkipsAnEntry(s, revents, ios) && !MeetsANewcomer(s, revents, ios)) &&
            (SkipsAnEntry(s, revents, ios) ==> |owed| == 2 && calls == owed[..1]) &&
            (MeetsANewcomer(s, revents, ios) ==>
               ios[0].setup.socket.SocketOpens? &&
               calls == owed + [Call(ios[0].setup.socket.fd, FromPollEvents(revents[1]), NewEntry(s, ios[0]).callback)])
  {
    hide FromPollEvents, Admits, Expels, Step, Owned, AtMostOneTransfer;
    AtMostTwoEntries(s);
    var entries := s.core.table.entries;
    if |entries| == 0 {
      FinishedPass(s, revents, 0, ios);
    } else if |entries| == 1 {
      OneEntry(s, revents, ios);
    } else {
      TwoEntries(s, revents, ios);
    }
  }

  lemma OneEntry(s: State, revents: seq<PollEvents>, ios: seq<HandlerIo>)
    requires |revents| == |ios| == MAX_HANDLERS && PassPossible(s, revents, 0, ios)
    requires Owned(s) && |s.core.table.entries| == 1
    ensures var owed := Owed(s.core.table.entries, revents, 0);
            var calls := PassCalls(s, revents, 0, ios);
            if MeetsANewcomer(s, revents, ios) then
              ios[0].setup.socket.SocketOpens? &&
              calls == owed + [Call(ios[0].setup.socket.fd, FromPollEvents(revents[1]), NewEntry(s, ios[0]).callback)]
            else calls == owed
  {
    hide FromPollEvents, Acceptable, Expels, Step, Owned, NewEntry;
    var e := s.core.table.entries[0];
    var events := FromPollEvents(revents[0]);
    if e.callback == ServerCallback && events != NO_EVENTS && Admits(s, events, ios[0]) {
      AdmittingIndex(s, revents, ios);
    } else {
      assert FromPollEvents(revents[0]) == NO_EVENTS ==> !Admits(s, FromPollEvents(revents[0]), ios[0]);
      LastIndex(s, revents, 0, ios);
    }
  }

  /** The pass in which the server, alone in the table, admits a transfer. */
  lemma AdmittingIndex(s: State, revents: seq<PollEvents>, ios: seq<HandlerIo>)
    requires |revents| == |ios| == MAX_HANDLERS && PassPossible(s, revents, 0, ios)
    requires Owned(s) && |s.core.table.entries| == 1 && s.core.table.entries[0].callback == ServerCallback
    requires Admits(s, FromPollEvents(revents[0]), ios[0])
    ensures ios[0].setup.socket.SocketOpens?
    ensures PassCalls(s, revents, 0, ios) ==
            Owed(s.core.table.entries, revents, 0) +
            if FromPollEvents(revents[1]) == NO_EVENTS then []
            else [Call(ios[0].setup.socket.fd, FromPollEvents(revents[1]), NewEntry(s, ios[0]).callback)]
  {
    hide FromPollEvents, Expels, Step, Owned, ParseRequest, SafeName, NoTransfers;
    var e := s.core.table.entries[0];
    var events := FromPollEvents(revents[0]);
    assert events != NO_EVENTS;
    CalledIndex(s, revents, 0, ios);
    ServerCallStep(s, e, events, ios[0]);
    StepKeepsOwned(s, EventOf(e, events, ios[0]));
    var s1 := Step(s, EventOf(e, events, ios[0]));
    assert s1.core.table.entries == [e, NewEntry(s, ios[0])];
    LastIndex(s1, revents, 1, ios);
    assert Owed(s1.core.table.entries, revents, 2) == [];
    assert Owed(s.core.table.entries, revents, 1) == [];
  }

  lemma QuietNeverExpels(s: State, e: Registration, io: HandlerIo)
    requires WellFormedState(s)
    ensures e.callback.TransferCallback? ==> !Expels(s, e.callback.slot, e.fd, NO_EVENTS, io)
  {
  }

  /** With two entries one of them is a transfer's, and then the server accepts nothing. */
  lemma NoneAdmitted(s: State)
    requires Owned(s) && |s.core.table.entries| == 2
    ensures forall events, io :: !Admits(s, events, io)
  {
    hide ParseRequest, SafeName, Settled, FilesOwned;
    var a, b := s.core.table.entries[0], s.core.table.entries[1];
    assert EntryOwned(s, a) && EntryOwned(s, b);
    LiveIsHeld(s, a.callback);
    LiveIsHeld(s, b.callback);
    assert a.callback != b.callback;
    assert !NoTransfers(s);
  }

  lemma TwoEntries(s: State, revents: seq<PollEvents>, ios: seq<HandlerIo>)
    requires |revents| == |ios| == MAX_HANDLERS && PassPossible(s, revents, 0, ios)
    requires Owned(s) && |s.core.table.entries| == 2
    ensures var owed := Owed(s.core.table.entries, revents, 0);
            var calls := PassCalls(s, revents, 0, ios);
            if SkipsAnEntry(s, revents, ios) then |owed| == 2 && calls == owed[..1] else calls == owed
  {
    hide FromPollEvents, Expels, Step, Owned, Acceptable;
    var entries := s.core.table.entries;
    var events := FromPollEvents(revents[0]);
    NoneAdmitted(s);
    assert Owed(entries, revents, 2) == [];
    if events == NO_EVENTS {
      QuietNeverExpels(s, entries[0], ios[0]);
      QuietIndex(s, revents, 0, ios);
      LastIndex(s, revents, 1, ios);
    } else {
      var event := EventOf(entries[0], events, ios[0]);
      CalledIndex(s, revents, 0, ios);
      StepKeepsOwned(s, event);
      match entries[0].callback {
        case ServerCallback =>
          ServerCallStep(s, entries[0], events, ios[0]);
          NoneAdmitted(Step(s, event));
          LastIndex(Step(s, event), revents, 1, ios);
        case TransferCallback(slot) =>
          TransferCallStep(s, entries[0], slot, events, ios[0]);
          if Expels(s, slot, entries[0].fd, events, ios[0]) {
            FinishedPass(Step(s, event), revents, 1, ios);
          } else {
            NoneAdmitted(Step(s, event));
            LastIndex(Step(s, event), revents, 1, ios);
          }
      }
    }
  }

  /** An error among the events nobody reported marks the transfer just accepted as failed. */
  lemma StaleErrorFailsTheNewcomer(s: State, revents: seq<PollEvents>, ios: seq<HandlerIo>)
    requires |revents| == |ios| == MAX_HANDLERS && PassPossible(s, revents, 0, ios)
    requires Owned(s) && MeetsANewcomer(s, revents, ios) && FromPollEvents(revents[1]).error
    ensures var s' := Last(Pass(s, revents, 0, ios).0);
            var i := FreeTransfer(s.core.transfers);
            i < |s'.core.transfers| && s'.core.transfers[i].inUse && s'.core.transfers[i].state == Failed
  {
    hide FromPollEvents, Acceptable, Step, Owned;
    var e := s.core.table.entries[0];
    var event := EventOf(e, FromPollEvents(revents[0]), ios[0]);
    assert FromPollEvents(revents[0]) != NO_EVENTS && FromPollEvents(revents[1]) != NO_EVENTS;
    CalledIndex(s, revents, 0, ios);
    AdmitsOpensASocket(s, FromPollEvents(revents[0]), ios[0]);
    ServerCallStep(s, e, FromPollEvents(revents[0]), ios[0]);
    StepKeepsOwned(s, event);
    var s1 := Step(s, event);
    assert s1.core.table.entries == [e, NewEntry(s, ios[0])];
    CalledIndex(s1, revents, 1, ios);
    var i := FreeTransfer(s.core.transfers);
    ErrorFailsATransfer(s1, s1.core.table.entries[1], i, FromPollEvents(revents[1]), ios[1]);
    var s2 := Step(s1, EventOf(s1.core.table.entries[1], FromPollEvents(revents[1]), ios[1]));
    FinishedPass(s2, revents, 2, ios);
    assert Last(Pass(s, revents, 0, ios).0) == s2;
  }

  lemma AdmitsOpensASocket(s: State, events: EventMask, io: HandlerIo)
    requires Admits(s, events, io)
    ensures io.setup.socket.SocketOpens?
  {
  }

  /** An error event marks a transfer failed without releasing it. */
  lemma ErrorFailsATransfer(s: State, e: Registration, slot: nat, events: EventMask, io: HandlerIo)
    requires Owned(s) && e in s.core.table.entries && e.callback == TransferCallback(slot) && events.error
    requires Possible(s, EventOf(e, events, io))
    ensures var s' := Step(s, EventOf(e, events, io));
            slot < |s'.core.transfers| && s'.core.transfers[slot].inUse && s'.core.transfers[slot].state == Failed &&
            s'.core.table == s.core.table
  {
    hide Unregistered, FilesOwned;
    assert EntryOwned(s, e);
    assert Settled(s.core.transfers[slot]);
    var v := s.core.transports[s.core.transfers[slot].transport.value].transport;
    assert OpenSocket(v) && e.fd == FdOf(v);
  }

  // ---------- both exceptions can be reached ----------

  /** A descriptor that no slot holds. */
  lemma FreshDescriptor(c: Core) returns (fd: nat)
    requires WellFormed(c)
    ensures FreshSocket(c, SocketOpens(fd, true))
  {
    var a, b := c.transports[0].transport.fd, c.transports[1].transport.fd;
    fd := if a >= 0 && a >= b then a + 1 else if b >= 0 then b + 1 else 0;
  }

  /** The program is initialised, and its pools and limits leave room for a transfer. */
  ghost predicate CanServe(s: State) {
    s.server.initialized && |s.core.transfers| > 0 && s.core.table.maxHandlers >= 2 && s.core.maxFilename >= 1
  }

  /** A start succeeds from any owned state in which the server does not run: with one transfer
      at most, a socket slot and a table entry are free. */
  lemma StartSucceeds(s: State, fd: nat)
    requires Owned(s) && AtMostOneTransfer(s) && CanServe(s) && !s.server.running
    requires FreshSocket(s.core, SocketOpens(fd, true))
    ensures var s' := Step(s, ServerStarts(SocketOpens(fd, true), true));
            CanServe(s') && s'.server.running && s'.core.transfers == s.core.transfers &&
            s'.core.maxFilename == s.core.maxFilename && s'.core.table.maxHandlers == s.core.table.maxHandlers &&
            s'.core.table.entries == s.core.table.entries + [Registration(fd, READ_AND_ERROR, ServerCallback)]
  {
    hide Owned, AtMostOneTransfer;
    OwnedIsWellFormed(s);
    StoppedServerLeavesRoom(s);
  }

  lemma StoppedServerLeavesRoom(s: State)
    requires Owned(s) && AtMostOneTransfer(s) && !s.server.running
    ensures FreeSlot(s.core.transports) < POOL_SIZE && |s.core.table.entries| <= 1 && s.core.table.initialized
  {
    hide FilesOwned, Settled;
    AtMostTwoEntries(s);
    if s.core.transports[0].used {
      var o :| Held(s, o) == Some(0);
      LiveIsHeld(s, o);
      forall p ensures Held(s, p) != Some(1) {
        LiveIsHeld(s, p);
      }
      assert !s.core.transports[1].used;
    }
  }

  /** A stop leaves the transfers and their entries. */
  lemma StopLeavesTransfers(s: State)
    requires Owned(s) && CanServe(s)
    ensures var s' := Step(s, ServerStops);
            CanServe(s') && !s'.server.running && s'.core.transfers == s.core.transfers
  {
    hide Unregistered, Without;
    if s.server.transport.Some? {
      assert Held(s, ServerCallback).Some?;
      OwnerIsRegistered(s, ServerCallback);
    }
  }

  /** A read request for "a", from anyone, answered from a disk that has that file. */
  function Asking(fd: nat, peer: Endpoint): HandlerIo {
    HandlerIo(RecvOk(RequestDatagram(1, [97]), peer),
              SetupIo(SocketOpens(fd, true), map[ROOT + [97] := []], SendOk, NextIo(ReadOk, SendOk)),
              NextIo(ReadOk, SendOk))
  }

  const READABLE := EventMask(true, false, false)

  lemma AskingIsAdmitted(s: State, fd: nat, peer: Endpoint)
    requires Owned(s) && CanServe(s) && s.server.running && NoTransfers(s)
    ensures Admits(s, READABLE, Asking(fd, peer))
  {
    hide ParseRequest;
    RequestRoundTrip(1, [97]);
    var d := RequestDatagram(1, [97]);
    assert d[..Min(|d|, RX_BUFFER_SIZE)] == d;
  }

  /** A running server without transfers has one entry, its own. */
  lemma OnlyTheServer(s: State)
    requires Owned(s) && AtMostOneTransfer(s) && s.server.running && NoTransfers(s)
    ensures |s.core.table.entries| == 1 && s.core.table.entries[0].callback == ServerCallback
  {
    hide Owned;
    AtMostTwoEntries(s);
    IdleServerHoldsOneSocket(s);
    assert CallbackLive(s, s.core.table.entries[0].callback);
  }

  /** Every initial state, started, is one request away from meeting a newcomer. */
  lemma NewcomersAreMet(s0: State, peer: Endpoint)
    returns (states: seq<State>, events: seq<Event>, revents: seq<PollEvents>, ios: seq<HandlerIo>)
    requires Initial(s0) && CanServe(s0)
    ensures Run(states, events) && states[0] == s0
    ensures |revents| == |ios| == MAX_HANDLERS && PassPossible(Last(states), revents, 0, ios)
    ensures MeetsANewcomer(Last(states), revents, ios)
  {
    hide Step, Owned, AtMostOneTransfer, Initial, Admits, PassPossible, Possible;
    var s1, start := FirstStart(s0);
    RunOfOne(s0, start);
    states, events := [s0, s1], [start];
    OnlyTheServer(s1);
    var fd := FreshDescriptor(s1.core);
    revents := seq(MAX_HANDLERS, _ => PollEvents(true, false, false, false, false));
    ios := seq(MAX_HANDLERS, _ => Asking(fd, peer));
    AskingIsAdmitted(s1, fd, peer);
    assert FromPollEvents(revents[0]) == FromPollEvents(revents[1]) == READABLE;
    PassFrom(s1, revents, ios);
  }

  lemma InitialServerIsStopped(s: State)
    requires Initial(s)
    ensures !s.server.running && NoTransfers(s) && s.core.table.entries == []
  {
  }

  /** A pass with a fresh socket for its first handler can be made when only that handler is the server's. */
  lemma PassFrom(s: State, revents: seq<PollEvents>, ios: seq<HandlerIo>)
    requires |revents| == |ios| == MAX_HANDLERS && Owned(s) && AtMostOneTransfer(s)
    requires |s.core.table.entries| == 1 && s.core.table.entries[0].callback == ServerCallback
    requires FreshSocket(s.core, ios[0].setup.socket)
    ensures PassPossible(s, revents, 0, ios)
  {
    hide FromPollEvents, FilesOwned, Admits, Step;
    var e := s.core.table.entries[0];
    var events := FromPollEvents(revents[0]);
    if events != NO_EVENTS {
      var event := EventOf(e, events, ios[0]);
      assert Possible(s, event);
      ServerCallStep(s, e, events, ios[0]);
      StepKeepsOwned(s, event);
      StepKeepsAtMostOne(s, event);
      PassFromTransfer(Step(s, event), revents, ios);
    }
  }

  lemma PassFromTransfer(s: State, revents: seq<PollEvents>, ios: seq<HandlerIo>)
    requires |revents| == |ios| == MAX_HANDLERS && Owned(s) && AtMostOneTransfer(s)
    requires |s.core.table.entries| >= 2 ==> s.core.table.entries[1].callback.TransferCallback?
    ensures PassPossible(s, revents, 1, ios)
  {
    hide FromPollEvents, FilesOwned, Step, AtMostOneTransfer;
    AtMostTwoEntries(s);
    if |s.core.table.entries| == 2 && FromPollEvents(revents[1]) != NO_EVENTS {
      var e := s.core.table.entries[1];
      assert CallbackLive(s, e.callback);
      var event := EventOf(e, FromPollEvents(revents[1]), ios[1]);
      TransferCallStep(s, e, e.callback.slot, FromPollEvents(revents[1]), ios[1]);
      StepKeepsOwned(s, event);
    }
  }

  lemma RunOfOne(s: State, e: Event)
    requires WellFormedState(s) && Possible(s, e)
    ensures Run([s, Step(s, e)], [e])
  {
  }

  /** A transfer that outlived the server has the only entry. */
  lemma OnlyTheTransfer(s: State, i: nat)
    requires Owned(s) && AtMostOneTransfer(s) && !s.server.running
    requires i < |s.core.transfers| && s.core.transfers[i].inUse
    ensures |s.core.table.entries| == 1 && s.core.table.entries[0].callback == TransferCallback(i)
  {
    hide Owned;
    AtMostTwoEntries(s);
    assert CallbackLive(s, TransferCallback(i));
    forall e | e in s.core.table.entries ensures e.callback == TransferCallback(i) {
      assert CallbackLive(s, e.callback);
    }
  }

  /** A running server with a transfer that is ahead of it in the table: an empty datagram from
      the peer ends the transfer, and then the server is skipped. */
  lemma EmptyDatagramSkips(s: State, i: nat) returns (revents: seq<PollEvents>, ios: seq<HandlerIo>)
    requires Owned(s) && |s.core.table.entries| == 2
    requires s.core.table.entries[0].callback == TransferCallback(i)
    ensures |revents| == |ios| == MAX_HANDLERS && PassPossible(s, revents, 0, ios) && SkipsAnEntry(s, revents, ios)
  {
    hide FilesOwned, Step;
    var e := s.core.table.entries[0];
    assert EntryOwned(s, e);
    assert Settled(s.core.transfers[i]);
    var t := s.core.transfers[i];
    var v := s.core.transports[t.transport.value].transport;
    assert OpenSocket(v) && e.fd == FdOf(v);
    var io := HandlerIo(RecvOk([], t.peer), SetupIo(SocketFails, map[], SendOk, NextIo(ReadOk, SendOk)), NextIo(ReadOk, SendOk));
    revents := seq(MAX_HANDLERS, _ => PollEvents(true, false, false, false, false));
    ios := seq(MAX_HANDLERS, _ => io);
    assert FromPollEvents(revents[0]) == FromPollEvents(revents[1]) == READABLE;
    assert Expels(s, i, e.fd, READABLE, io);
    TransferCallStep(s, e, i, READABLE, io);
    IndexOfIs(s.core.table.entries, e.fd, 0);
    assert |Step(s, EventOf(e, READABLE, io)).core.table.entries| == 1;
  }

  /** Every initial state reaches a state in which a pass skips the server: it is started,
      accepts a request, is stopped, and is started again behind the transfer that outlived it. */
  lemma SkipsAreReached(s0: State, peer: Endpoint)
    returns (states: seq<State>, events: seq<Event>, revents: seq<PollEvents>, ios: seq<HandlerIo>)
    requires Initial(s0) && CanServe(s0)
    ensures Run(states, events) && states[0] == s0
    ensures |revents| == |ios| == MAX_HANDLERS && PassPossible(Last(states), revents, 0, ios)
    ensures SkipsAnEntry(Last(states), revents, ios)
  {
    hide Step, Owned, AtMostOneTransfer, Initial, Admits, PassPossible, Run, Possible, SkipsAnEntry;
    var s1, start := FirstStart(s0);
    var s2, accept, i := FirstTransfer(s1, peer);
    var s3, stop := StopBehind(s2, i);
    var s4, again := StartBehind(s3, i);
    revents, ios := EmptyDatagramSkips(s4, i);
    RunOfOne(s3, again);
    RunExtends(s2, stop, [s3, s4], [again]);
    RunExtends(s1, accept, [s2] + [s3, s4], [stop] + [again]);
    RunExtends(s0, start, [s1] + ([s2] + [s3, s4]), [accept] + ([stop] + [again]));
    states, events := [s0] + ([s1] + ([s2] + [s3, s4])), [start] + ([accept] + ([stop] + [again]));
  }

  /** One step from a sound state with at most one transfer to another. */
  ghost predicate Sound(s: State) {
    Owned(s) && AtMostOneTransfer(s) && CanServe(s) && WellFormedState(s)
  }

  lemma SoundStep(s: State, e: Event)
    requires Sound(s) && Possible(s, e)
    ensures Owned(Step(s, e)) && AtMostOneTransfer(Step(s, e)) && WellFormedState(Step(s, e))
  {
    hide Step, Owned, AtMostOneTransfer, Possible;
    StepKeepsOwned(s, e);
    StepKeepsAtMostOne(s, e);
  }

  lemma FirstStart(s: State) returns (s': State, e: Event)
    requires Initial(s) && CanServe(s)
    ensures Sound(s) && Possible(s, e) && s' == Step(s, e) && Sound(s') && s'.server.running && NoTransfers(s')
    ensures e.ServerStarts? && s'.core.transfers == s.core.transfers
    ensures s'.core.maxFilename == s.core.maxFilename && s'.core.table.maxHandlers == s.core.table.maxHandlers
  {
    hide Step, Owned, AtMostOneTransfer, Initial;
    InitialIsOwned(s);
    InitialServerIsStopped(s);
    OwnedIsWellFormed(s);
    var fd := FreshDescriptor(s.core);
    e := ServerStarts(SocketOpens(fd, true), true);
    SoundStep(s, e);
    StartSucceeds(s, fd);
    s' := Step(s, e);
  }

  lemma FirstTransfer(s: State, peer: Endpoint) returns (s': State, e: Event, i: nat)
    requires Sound(s) && s.server.running && NoTransfers(s)
    ensures Possible(s, e) && s' == Step(s, e) && Sound(s') && i < |s'.core.transfers| && s'.core.transfers[i].inUse
  {
    hide Step, Owned, AtMostOneTransfer, Admits;
    OnlyTheServer(s);
    var fd := FreshDescriptor(s.core);
    var entry := s.core.table.entries[0];
    e := EventOf(entry, READABLE, Asking(fd, peer));
    AskingIsAdmitted(s, fd, peer);
    SoundStep(s, e);
    ServerCallStep(s, entry, READABLE, Asking(fd, peer));
    ServeKeepsConfiguration(s, e);
    s' := Step(s, e);
    i := FreeTransfer(s.core.transfers);
  }

  lemma ServeKeepsConfiguration(s: State, e: Event)
    requires Owned(s) && e.ServerNotified? && Possible(s, e)
    ensures var s' := Step(s, e);
            s'.server == s.server && |s'.core.transfers| == |s.core.transfers| &&
            s'.core.maxFilename == s.core.maxFilename && s'.core.table.maxHandlers == s.core.table.maxHandlers
  {
    hide Serve;
    var r := ServerReady(s, e.fd, e.events, e.recv, e.setup);
    if r.state != s {
      var v := s.core.transports[s.server.transport.value].transport;
      var data := Received(v, RX_BUFFER_SIZE, e.recv).1;
      if Serve(s, data, e.recv.source, e.setup).status == Ok {
        AcceptedRequest(s, data, e.recv.source, e.setup);
      } else {
        FailedRequestsLeaveNoTrace(s, data, e.recv.source, e.setup);
      }
    }
  }

  lemma StopBehind(s: State, i: nat) returns (s': State, e: Event)
    requires Sound(s) && i < |s.core.transfers| && s.core.transfers[i].inUse
    ensures Possible(s, e) && s' == Step(s, e) && Sound(s') && !s'.server.running
    ensures i < |s'.core.transfers| && s'.core.transfers[i].inUse
  {
    hide Step, Owned, AtMostOneTransfer;
    e := ServerStops;
    SoundStep(s, e);
    StopLeavesTransfers(s);
    s' := Step(s, e);
  }

  lemma StartBehind(s: State, i: nat) returns (s': State, e: Event)
    requires Sound(s) && !s.server.running && i < |s.core.transfers| && s.core.transfers[i].inUse
    ensures Possible(s, e) && s' == Step(s, e) && Sound(s')
    ensures |s'.core.table.entries| == 2 && s'.core.table.entries[0].callback == TransferCallback(i)
  {
    hide Step, Owned, AtMostOneTransfer;
    OnlyTheTransfer(s, i);
    var fd := FreshDescriptor(s.core);
    e := ServerStarts(SocketOpens(fd, true), true);
    SoundStep(s, e);
    StartSucceeds(s, fd);
    s' := Step(s, e);
  }
}
