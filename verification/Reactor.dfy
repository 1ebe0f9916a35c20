/**
 The reactor of src/tftp/reactor/reactor.c: a bounded table of registrations,
 removal by shifting in place, and the dispatch loop. A handler pointer and its
 context are one `Callback` value; what a handler does to the table while it
 runs is an arbitrary list of registrations and unregistrations.
*/
module Reactors {
  import opened Wire

  const MAX_HANDLERS: nat := 16

  datatype Callback = ServerCallback | TransferCallback(slot: nat)

  datatype Registration = Registration(fd: int, events: EventMask, callback: Callback)

  /** The bits POLLIN, POLLOUT, POLLERR, POLLHUP and POLLNVAL. */
  datatype PollEvents = PollEvents(input: bool, output: bool, err: bool, hup: bool, nval: bool)

  datatype PollFd = PollFd(fd: int, events: PollEvents)

  /** What `poll` reports. `revents` is the whole 16-entry array: beyond the
      registered entries it holds whatever the stack held. */
  datatype PollIo = PollFails | PollTimesOut | PollReady(revents: seq<PollEvents>)

  datatype TableOp = Add(registration: Registration) | Remove(fd: int)

  datatype Call = Call(fd: int, events: EventMask, callback: Callback)

  const NO_EVENTS: EventMask := EventMask(false, false, false)

  function ToPollEvents(events: EventMask): PollEvents {
    PollEvents(events.read, events.write, events.error, false, false)
  }

  /** What `poll` is asked to watch for an entry: its descriptor, for input if the entry wants read
      events, for output if it wants write events, for errors if it wants error events. */
  ghost predicate Watches(polled: PollFd, e: Registration) {
    && polled.fd == e.fd
    && (polled.events.input <==> e.events.read)
    && (polled.events.output <==> e.events.write)
    && (polled.events.err <==> e.events.error)
    && !polled.events.hup && !polled.events.nval
  }

  function FromPollEvents(revents: PollEvents): EventMask {
    EventMask(revents.input, revents.output, revents.err || revents.hup || revents.nval)
  }

  // ---------- the table as a value ----------

  datatype Table = Table(initialized: bool, entries: seq<Registration>, maxHandlers: nat) {
    predicate Valid() {
      |entries| <= maxHandlers <= MAX_HANDLERS
    }
  }

  /** The index of the first entry for `fd`, or the length. */
  function IndexOf(entries: seq<Registration>, fd: int): (i: nat)
    ensures i <= |entries|
    ensures i < |entries| ==> entries[i].fd == fd
    ensures forall k :: 0 <= k < i ==> entries[k].fd != fd
  {
    if entries == [] || entries[0].fd == fd then 0 else 1 + IndexOf(entries[1..], fd)
  }

  /** An index with only other descriptors before it is the one found. */
  lemma {:induction false} IndexOfIs(entries: seq<Registration>, fd: int, at: nat)
    requires at <= |entries| && (at < |entries| ==> entries[at].fd == fd)
    requires forall k :: 0 <= k < at ==> entries[k].fd != fd
    ensures IndexOf(entries, fd) == at
  {
    if at == 0 {
    } else {
      assert entries[0].fd != fd;
      IndexOfIs(entries[1..], fd, at - 1);
    }
  }

  function Without(entries: seq<Registration>, fd: int): seq<Registration> {
    var i := IndexOf(entries, fd);
    if i < |entries| then entries[..i] + entries[i + 1..] else entries
  }

  function Registered(t: Table, registration: Registration): (r: (Table, Status))
    ensures t.Valid() ==> r.0.Valid()
  {
    if !t.initialized then (t, NotInitialized)
    else if registration.fd < 0 then (t, InvalidArgument)
    else if |t.entries| >= t.maxHandlers then (t, NoResource)
    else (t.(entries := t.entries + [registration]), Ok)
  }

  function Unregistered(t: Table, fd: int): (r: (Table, Status))
    ensures t.Valid() ==> r.0.Valid()
  {
    if !t.initialized then (t, NotInitialized)
    else if IndexOf(t.entries, fd) == |t.entries| then (t, InvalidArgument)
    else (t.(entries := Without(t.entries, fd)), Ok)
  }

  function Applied(t: Table, ops: seq<TableOp>): (r: Table)
    ensures t.Valid() ==> r.Valid()
    decreases |ops|
  {
    if ops == [] then t
    else
      var next := match ops[0]
                  case Add(registration) => Registered(t, registration).0
                  case Remove(fd) => Unregistered(t, fd).0;
      Applied(next, ops[1..])
  }

  /** What the k-th handler called does to the table. */
  function Script(behaviour: seq<seq<TableOp>>, k: nat): seq<TableOp> {
    if k < |behaviour| then behaviour[k] else []
  }

  /** The dispatch loop from index `i`, with `k` handlers already called. */
  function Dispatch(t: Table, revents: seq<PollEvents>, i: nat, k: nat, behaviour: seq<seq<TableOp>>)
    : (r: (Table, seq<Call>))
    requires t.Valid() && |revents| == MAX_HANDLERS
    ensures r.0.Valid()
    decreases MAX_HANDLERS - i
  {
    if i >= |t.entries| then (t, [])
    else
      var events := FromPollEvents(revents[i]);
      if events == NO_EVENTS then Dispatch(t, revents, i + 1, k, behaviour)
      else
        var call := Call(t.entries[i].fd, events, t.entries[i].callback);
        var rest := Dispatch(Applied(t, Script(behaviour, k)), revents, i + 1, k + 1, behaviour);
        (rest.0, [call] + rest.1)
  }

  /** One turn of the dispatch, after the calls made so far. */
  lemma DispatchTurn(t: Table, revents: seq<PollEvents>, i: nat, behaviour: seq<seq<TableOp>>, calls: seq<Call>)
    requires t.Valid() && |revents| == MAX_HANDLERS && i < |t.entries|
    ensures var whole := Dispatch(t, revents, i, |calls|, behaviour);
            var events := FromPollEvents(revents[i]);
            if events == NO_EVENTS then whole == Dispatch(t, revents, i + 1, |calls|, behaviour)
            else
              var made := calls + [Call(t.entries[i].fd, events, t.entries[i].callback)];
              var rest := Dispatch(Applied(t, Script(behaviour, |calls|)), revents, i + 1, |made|, behaviour);
              whole.0 == rest.0 && calls + whole.1 == made + rest.1
  {
    hide Applied, Script, FromPollEvents;
  }

  lemma DispatchEnds(t: Table, revents: seq<PollEvents>, i: nat, k: nat, behaviour: seq<seq<TableOp>>)
    requires t.Valid() && |revents| == MAX_HANDLERS && i >= |t.entries|
    ensures Dispatch(t, revents, i, k, behaviour) == (t, [])
  {
  }

  // ---------- the reactor object ----------

  class Reactor {
    var initialized: bool
    const registrations: array<Registration>
    var count: nat
    var maxHandlers: nat

    ghost predicate Valid()
      reads this
    {
      registrations.Length == MAX_HANDLERS && count <= maxHandlers <= MAX_HANDLERS
    }

    function Value(): (t: Table)
      requires Valid()
      reads this, registrations
      ensures t.Valid()
    {
      Table(initialized, registrations[..count], maxHandlers)
    }

    /** Static storage: zeroed, not yet initialised. */
    constructor ()
      ensures Valid() && fresh(registrations)
      ensures Value() == Table(false, [], 0)
    {
      initialized := false;
      registrations := new Registration[MAX_HANDLERS](_ => Registration(0, NO_EVENTS, ServerCallback));
      count := 0;
      maxHandlers := 0;
    }

    /** `configured` is `config->max_handlers`, or 0 when there is no configuration. */
    method Init(configured: nat) returns (status: Status)
      requires Valid()
      modifies this
      ensures Valid() && status == Ok
      ensures Value() == Table(true, [], if configured == 0 then MAX_HANDLERS else Min(configured, MAX_HANDLERS))
    {
      var handlers := MAX_HANDLERS;
      if configured != 0 {
        handlers := configured;
      }
      if handlers > MAX_HANDLERS {
        handlers := MAX_HANDLERS;
      }
      initialized := true;
      count := 0;
      maxHandlers := handlers;
      return Ok;
    }

    method Register(registration: Registration) returns (status: Status)
      requires Valid()
      modifies this, registrations
      ensures Valid()
      ensures (Value(), status) == Registered(old(Value()), registration)
    {
      if !initialized {
        return NotInitialized;
      }
      if registration.fd < 0 {
        return InvalidArgument;
      }
      if count >= maxHandlers {
        return NoResource;
      }
      registrations[count] := registration;
      count := count + 1;
      assert registrations[..count] == old(registrations[..count]) + [registration];
      return Ok;
    }

    method Unregister(fd: int) returns (status: Status)
      requires Valid()
      modifies this, registrations
      ensures Valid()
      ensures (Value(), status) == Unregistered(old(Value()), fd)
    {
      if !initialized {
        return NotInitialized;
      }
      ghost var before := Value().entries;
      var i := 0;
      while i < count
        invariant i <= count == old(count)
        invariant unchanged(this) && unchanged(registrations)
        invariant forall k :: 0 <= k < i ==> before[k].fd != fd
      {
        if registrations[i].fd == fd {
          IndexOfIs(before, fd, i);
          RemoveAt(i);
          return Ok;
        }
        i := i + 1;
      }
      IndexOfIs(before, fd, i);
      return InvalidArgument;
    }

    /** Shift the entries behind index `i` down by one. */
    method RemoveAt(i: nat)
      requires Valid() && i < count
      modifies this`count, registrations
      ensures Valid() && count == old(count) - 1
      ensures registrations[..count] == old(registrations[..count])[..i] + old(registrations[..count])[i + 1..]
    {
      ghost var before := registrations[..count];
      var j := i;
      while j + 1 < count
        invariant i <= j < count == old(count)
        invariant forall k :: 0 <= k < i ==> registrations[k] == before[k]
        invariant forall k :: i <= k < j ==> registrations[k] == before[k + 1]
        invariant forall k :: j < k < count ==> registrations[k] == before[k]
      {
        registrations[j] := registrations[j + 1];
        j := j + 1;
      }
      count := count - 1;
      assert registrations[..count] == before[..i] + before[i + 1..];
    }

    /** A handler at work on the table. */
    method RunHandler(ops: seq<TableOp>)
      requires Valid()
      modifies this, registrations
      ensures Valid()
      ensures Value() == Applied(old(Value()), ops)
    {
      var n := 0;
      while n < |ops|
        invariant n <= |ops| && Valid()
        invariant Applied(Value(), ops[n..]) == Applied(old(Value()), ops)
      {
        match ops[n] {
          case Add(registration) =>
            var _ := Register(registration);
          case Remove(fd) =>
            var _ := Unregister(fd);
        }
        assert ops[n..][1..] == ops[n + 1..];
        n := n + 1;
      }
    }

    /** Fill the poll set from the table. */
    method PollSet() returns (polled: seq<PollFd>)
      requires Valid()
      ensures |polled| == count
      ensures forall k :: 0 <= k < count ==> Watches(polled[k], Value().entries[k])
    {
      polled := [];
      var i := 0;
      while i < count
        invariant i <= count && |polled| == i
        invariant forall k :: 0 <= k < i ==> Watches(polled[k], registrations[k])
      {
        polled := polled + [PollFd(registrations[i].fd, ToPollEvents(registrations[i].events))];
        i := i + 1;
      }
    }

    /** Call the handlers of the ready entries, re-reading the count every time round. */
    method CallHandlers(revents: seq<PollEvents>, behaviour: seq<seq<TableOp>>) returns (calls: seq<Call>)
      requires Valid() && |revents| == MAX_HANDLERS
      modifies this, registrations
      ensures Valid()
      ensures (Value(), calls) == Dispatch(old(Value()), revents, 0, 0, behaviour)
    {
      hide Applied, Script, FromPollEvents, Dispatch;
      calls := [];
      var i := 0;
      ghost var whole := Dispatch(Value(), revents, 0, 0, behaviour);
      assert calls + whole.1 == whole.1;
      while i < count
        invariant Valid()
        invariant var rest := Dispatch(Value(), revents, i, |calls|, behaviour);
                  whole == (rest.0, calls + rest.1)
        decreases MAX_HANDLERS - i
      {
        DispatchTurn(Value(), revents, i, behaviour, calls);
        var events := FromPollEvents(revents[i]);
        if events != NO_EVENTS {
          var call := Call(registrations[i].fd, events, registrations[i].callback);
          RunHandler(Script(behaviour, |calls|));
          calls := calls + [call];
        }
        i := i + 1;
      }
      DispatchEnds(Value(), revents, i, |calls|, behaviour);
      assert calls + [] == calls;
    }

    /** One pass. `calls` records every handler call in order; `polled` is what `poll` was given. */
    method RunOnce(io: PollIo, behaviour: seq<seq<TableOp>>)
      returns (status: Status, polled: seq<PollFd>, calls: seq<Call>)
      requires Valid()
      requires io.PollReady? ==> |io.revents| == MAX_HANDLERS
      modifies this, registrations
      ensures Valid()
      ensures status ==
              if !old(initialized) then NotInitialized
              else if io.PollFails? then IoError
              else if io.PollTimesOut? then Timeout
              else Ok
      ensures status != NotInitialized ==>
                |polled| == old(count) &&
                forall k :: 0 <= k < |polled| ==> Watches(polled[k], old(Value()).entries[k])
      ensures status == Ok ==> (Value(), calls) == Dispatch(old(Value()), io.revents, 0, 0, behaviour)
      ensures status != Ok ==> Value() == old(Value()) && calls == []
    {
      if !initialized {
        return NotInitialized, [], [];
      }
      polled := PollSet();
      if io.PollFails? {
        return IoError, polled, [];
      }
      if io.PollTimesOut? {
        return Timeout, polled, [];
      }
      calls := CallHandlers(io.revents, behaviour);
      return Ok, polled, calls;
    }
  }
}
