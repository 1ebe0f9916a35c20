/**
 One pass of the reactor over the real handlers. The pass re-reads the table each
 time round, so it can meet entries the poll never saw and pair them with events
 that are not theirs; whatever it does is still a run of the program's steps.
*/
module EventLoop {
  import opened Wire
  import opened Transports
  import opened Reactors
  import opened Transfers
  import opened Servers
  import opened Ownership
  import opened Runs

  /** What the system reports to the handler called for one index of the table. */
  datatype HandlerIo = HandlerIo(recv: RecvIo, setup: SetupIo, next: NextIo)

  function EventOf(e: Registration, events: EventMask, io: HandlerIo): Event {
    match e.callback
    case ServerCallback => ServerNotified(e.fd, events, io.recv, io.setup)
    case TransferCallback(slot) => TransferNotified(slot, Notice(e.fd, events, io.recv, io.next))
  }

  /** Every handler call of the pass from index `i` on is possible when it is made. */
  ghost predicate PassPossible(s: State, revents: seq<PollEvents>, i: nat, ios: seq<HandlerIo>)
    requires |revents| == |ios| == MAX_HANDLERS
    decreases MAX_HANDLERS - i
  {
    WellFormedState(s) &&
    (i < |s.core.table.entries| ==>
       var events := FromPollEvents(revents[i]);
       if events == NO_EVENTS then PassPossible(s, revents, i + 1, ios)
       else
         var e := EventOf(s.core.table.entries[i], events, ios[i]);
         Possible(s, e) && PassPossible(Step(s, e), revents, i + 1, ios))
  }

  /** The pass from index `i` on: the states it goes through, and the steps between them. */
  function Pass(s: State, revents: seq<PollEvents>, i: nat, ios: seq<HandlerIo>): (r: (seq<State>, seq<Event>))
    requires |revents| == |ios| == MAX_HANDLERS && PassPossible(s, revents, i, ios)
    ensures |r.0| == |r.1| + 1 && r.0[0] == s
    decreases MAX_HANDLERS - i
  {
    if i >= |s.core.table.entries| then ([s], [])
    else
      var events := FromPollEvents(revents[i]);
      if events == NO_EVENTS then Pass(s, revents, i + 1, ios)
      else
        var e := EventOf(s.core.table.entries[i], events, ios[i]);
        var rest := Pass(Step(s, e), revents, i + 1, ios);
        ([s] + rest.0, [e] + rest.1)
  }

  function Last(states: seq<State>): State
    requires states != []
  {
    states[|states| - 1]
  }

  /** The state the pass ends in. */
  function PassEnd(s: State, revents: seq<PollEvents>, i: nat, ios: seq<HandlerIo>): State
    requires |revents| == |ios| == MAX_HANDLERS && PassPossible(s, revents, i, ios)
  {
    Last(Pass(s, revents, i, ios).0)
  }

  /** Every pass is a run of the program's steps. */
  lemma {:induction false} PassIsARun(s: State, revents: seq<PollEvents>, i: nat, ios: seq<HandlerIo>)
    requires |revents| == |ios| == MAX_HANDLERS && PassPossible(s, revents, i, ios)
    ensures Run(Pass(s, revents, i, ios).0, Pass(s, revents, i, ios).1)
    decreases MAX_HANDLERS - i
  {
    hide Step, Possible, FromPollEvents, EventOf;
    if i >= |s.core.table.entries| {
    } else {
      var events := FromPollEvents(revents[i]);
      if events == NO_EVENTS {
        PassIsARun(s, revents, i + 1, ios);
      } else {
        var e := EventOf(s.core.table.entries[i], events, ios[i]);
        PassIsARun(Step(s, e), revents, i + 1, ios);
        var rest := Pass(Step(s, e), revents, i + 1, ios);
        RunExtends(s, e, rest.0, rest.1);
      }
    }
  }

  lemma RunExtends(s: State, e: Event, states: seq<State>, events: seq<Event>)
    requires WellFormedState(s) && Possible(s, e) && Run(states, events) && states[0] == Step(s, e)
    ensures Run([s] + states, [e] + events)
  {
    hide Step, Possible, WellFormedState;
    var states', events' := [s] + states, [e] + events;
    forall k | 0 <= k < |events'|
      ensures WellFormedState(states'[k]) && Possible(states'[k], events'[k])
      ensures states'[k + 1] == Step(states'[k], events'[k])
    {
      if k > 0 {
        assert events'[k] == events[k - 1];
      }
    }
  }

  /** So it keeps the ownership invariant and the single active transfer. */
  lemma PassKeepsOwned(s: State, revents: seq<PollEvents>, ios: seq<HandlerIo>)
    requires |revents| == |ios| == MAX_HANDLERS && PassPossible(s, revents, 0, ios)
    requires Owned(s) && AtMostOneTransfer(s)
    ensures Owned(PassEnd(s, revents, 0, ios)) && AtMostOneTransfer(PassEnd(s, revents, 0, ios))
  {
    hide Owned, AtMostOneTransfer, Run;
    PassIsARun(s, revents, 0, ios);
    var (states, events) := Pass(s, revents, 0, ios);
    KeptAtEveryPoint(states, events, |events|);
  }

  // ---------- the loop over the objects ----------

  method CallHandler(server: TftpServer, e: Registration, events: EventMask, io: HandlerIo)
    requires server.Valid() && Owned(server.Value())
    requires Possible(server.Value(), EventOf(e, events, io))
    modifies server.statics.transports.used, server.statics.transports.pool, server.statics.files.pool,
             server.statics.reactor, server.statics.reactor.registrations, server.statics.pool, server.statics.Buffers()
    ensures server.Valid() && server.Value() == Step(old(server.Value()), EventOf(e, events, io))
  {
    hide WellFormed, Statics.Valid, Statics.Value, ServerReady, TransferReady;
    server.ValidStatics();
    match e.callback {
      case ServerCallback =>
        var _ := server.UdpHandler(e.fd, events, io.recv, io.setup);
      case TransferCallback(slot) =>
        var t := server.statics.pool[slot];
        server.statics.PoolSlot(slot);
        server.statics.ValueOf(t);
        assert Settled(server.Value().core.transfers[slot]);
        var _ := server.statics.TransferUdpHandler(t, Notice(e.fd, events, io.recv, io.next));
    }
  }

  /** From index `i` on the pass goes on from `s`, and ends in `end`. */
  ghost predicate Remaining(s: State, revents: seq<PollEvents>, i: nat, ios: seq<HandlerIo>, end: State) {
    |revents| == |ios| == MAX_HANDLERS && PassPossible(s, revents, i, ios) && PassEnd(s, revents, i, ios) == end
  }

  /** One index of the pass. */
  method HandleIndex(server: TftpServer, revents: seq<PollEvents>, i: nat, ios: seq<HandlerIo>, ghost end: State)
    requires server.Valid() && Owned(server.Value())
    requires Remaining(server.Value(), revents, i, ios, end)
    requires i < |server.Value().core.table.entries| <= MAX_HANDLERS
    modifies server.statics.transports.used, server.statics.transports.pool, server.statics.files.pool,
             server.statics.reactor, server.statics.reactor.registrations, server.statics.pool, server.statics.Buffers()
    ensures server.Valid() && Owned(server.Value())
    ensures Remaining(server.Value(), revents, i + 1, ios, end)
  {
    hide WellFormed, Statics.Valid, Step, Possible, Owned, FromPollEvents, EventOf, TftpServer.Value, TftpServer.Valid;
    var events := FromPollEvents(revents[i]);
    if events != NO_EVENTS {
      server.ReactorCount();
      var e := server.statics.reactor.registrations[i];
      StepKeepsOwned(server.Value(), EventOf(e, events, ios[i]));
      CallHandler(server, e, events, ios[i]);
    }
  }

  method RunHandlers(server: TftpServer, revents: seq<PollEvents>, ios: seq<HandlerIo>)
    requires server.Valid() && Owned(server.Value())
    requires |revents| == |ios| == MAX_HANDLERS && PassPossible(server.Value(), revents, 0, ios)
    modifies server.statics.transports.used, server.statics.transports.pool, server.statics.files.pool,
             server.statics.reactor, server.statics.reactor.registrations, server.statics.pool, server.statics.Buffers()
    ensures server.Valid() && Owned(server.Value())
    ensures server.Value() == PassEnd(old(server.Value()), revents, 0, ios)
  {
    hide WellFormed, Statics.Valid, Step, Possible, Owned, PassPossible, TftpServer.Value, TftpServer.Valid;
    ghost var end := PassEnd(server.Value(), revents, 0, ios);
    var i := 0;
    server.ReactorCount();
    while i < server.statics.reactor.count
      invariant server.Valid() && Owned(server.Value())
      invariant server.statics.reactor.count == |server.Value().core.table.entries| <= MAX_HANDLERS
      invariant Remaining(server.Value(), revents, i, ios, end)
      decreases MAX_HANDLERS - i
    {
      HandleIndex(server, revents, i, ios, end);
      server.ReactorCount();
      i := i + 1;
    }
  }
}
