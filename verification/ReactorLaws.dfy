/** What the registration table and the dispatch loop promise. */
module ReactorLaws {
  import opened Wire
  import opened Reactors

  ghost predicate DistinctFds(entries: seq<Registration>) {
    forall a, b :: 0 <= a < b < |entries| ==> entries[a].fd != entries[b].fd
  }

  /** Deleting the only entry for `fd` leaves exactly the others, still distinct. */
  lemma WithoutKeepsTheRest(entries: seq<Registration>, fd: int)
    requires DistinctFds(entries)
    ensures DistinctFds(Without(entries, fd))
    ensures forall e :: e in Without(entries, fd) <==> e in entries && e.fd != fd
  {
  }

  /** Registering a fresh descriptor and then unregistering it restores the table. */
  lemma UnregisterUndoesRegister(t: Table, registration: Registration)
    requires IndexOf(t.entries, registration.fd) == |t.entries|
    requires Registered(t, registration).1 == Ok
    ensures Unregistered(Registered(t, registration).0, registration.fd) == (t, Ok)
  {
    var entries := t.entries + [registration];
    assert forall k :: 0 <= k < |t.entries| ==> entries[k] == t.entries[k];
    assert entries[|t.entries|].fd == registration.fd;
    assert IndexOf(entries, registration.fd) == |t.entries|;
    assert entries[..|t.entries|] + entries[|t.entries| + 1..] == t.entries;
  }

  /** A registration succeeds exactly when the reactor is initialised, the descriptor is one and
      there is room; a removal exactly when it is initialised and the descriptor is registered. */
  lemma TableRefusals(t: Table, registration: Registration, fd: int)
    ensures Registered(t, registration).1 ==
            if !t.initialized then NotInitialized
            else if registration.fd < 0 then InvalidArgument
            else if |t.entries| < t.maxHandlers then Ok
            else NoResource
    ensures Registered(t, registration).1 != Ok ==> Registered(t, registration).0 == t
    ensures Unregistered(t, fd).1 ==
            if !t.initialized then NotInitialized
            else if exists e :: e in t.entries && e.fd == fd then Ok
            else InvalidArgument
    ensures Unregistered(t, fd).1 != Ok ==> Unregistered(t, fd).0 == t
  {
    var i := IndexOf(t.entries, fd);
    assert i < |t.entries| ==> t.entries[i] in t.entries;
  }

  // ---------- dispatch ----------

  /** The calls a pass owes the table it polled: one for each entry with events,
      in table order, with that entry's own descriptor, events and callback. */
  function Owed(entries: seq<Registration>, revents: seq<PollEvents>, i: nat): (r: seq<Call>)
    requires |entries| <= |revents|
    ensures |r| <= if i <= |entries| then |entries| - i else 0
    decreases |entries| - i
  {
    if i >= |entries| then []
    else
      var events := FromPollEvents(revents[i]);
      var rest := Owed(entries, revents, i + 1);
      if events == NO_EVENTS then rest
      else [Call(entries[i].fd, events, entries[i].callback)] + rest
  }

  /** A pass owes a call to exactly the entries whose poll result has any of the five bits, and tells
      the handler of input as read, of output as write, and of an error, a hang-up or a bad
      descriptor as error. */
  ghost predicate Reports(call: Call, e: Registration, revents: PollEvents) {
    && call.fd == e.fd && call.callback == e.callback
    && (call.events.read <==> revents.input)
    && (call.events.write <==> revents.output)
    && (call.events.error <==> revents.err || revents.hup || revents.nval)
  }

  predicate Signalled(revents: PollEvents) {
    revents.input || revents.output || revents.err || revents.hup || revents.nval
  }

  lemma BitsAreReported(e: Registration, revents: PollEvents)
    ensures FromPollEvents(revents) == NO_EVENTS <==> !Signalled(revents)
    ensures Reports(Call(e.fd, FromPollEvents(revents), e.callback), e, revents)
  {
  }

  lemma {:induction false} OwedCallsReport(entries: seq<Registration>, revents: seq<PollEvents>, i: nat)
    requires |entries| <= |revents|
    ensures forall call :: call in Owed(entries, revents, i) ==>
              exists j :: i <= j < |entries| && Signalled(revents[j]) && Reports(call, entries[j], revents[j])
    ensures forall j {:trigger revents[j]} :: i <= j < |entries| && Signalled(revents[j]) ==>
              exists call :: call in Owed(entries, revents, i) && Reports(call, entries[j], revents[j])
    decreases |entries| - i
  {
    if i >= |entries| {
    } else {
      hide FromPollEvents, Reports, Signalled;
      OwedCallsReport(entries, revents, i + 1);
      BitsAreReported(entries[i], revents[i]);
      var call := Call(entries[i].fd, FromPollEvents(revents[i]), entries[i].callback);
      var rest := Owed(entries, revents, i + 1);
      assert forall c :: c in [call] + rest <==> c == call || c in rest;
    }
  }

  ghost predicate KeepsTable(t: Table, behaviour: seq<seq<TableOp>>, k: nat) {
    Applied(t, Script(behaviour, k)).entries == t.entries
  }

  /** Register and unregister never touch the other two fields of the table. */
  lemma {:induction false} AppliedKeepsConfiguration(t: Table, ops: seq<TableOp>)
    ensures Applied(t, ops).initialized == t.initialized
    ensures Applied(t, ops).maxHandlers == t.maxHandlers
    decreases |ops|
  {
    if ops == [] {
    } else {
      match ops[0] {
        case Add(registration) => AppliedKeepsConfiguration(Registered(t, registration).0, ops[1..]);
        case Remove(fd) => AppliedKeepsConfiguration(Unregistered(t, fd).0, ops[1..]);
      }
    }
  }

  lemma {:induction false} DispatchFrom(
      t: Table, revents: seq<PollEvents>, i: nat, k: nat, behaviour: seq<seq<TableOp>>, quiet: nat)
    requires t.Valid() && |revents| == MAX_HANDLERS
    requires forall j :: k <= j < k + quiet ==> KeepsTable(t, behaviour, j)
    ensures var calls := Dispatch(t, revents, i, k, behaviour).1;
            var owed := Owed(t.entries, revents, i);
            if quiet < |owed| then quiet < |calls| && calls[..quiet + 1] == owed[..quiet + 1]
            else calls == owed && Dispatch(t, revents, i, k, behaviour).0 == t
    decreases MAX_HANDLERS - i
  {
    hide Applied, Script, FromPollEvents;
    if i >= |t.entries| {
    } else {
      if FromPollEvents(revents[i]) == NO_EVENTS {
        DispatchFrom(t, revents, i + 1, k, behaviour, quiet);
      } else if quiet > 0 {
        assert KeepsTable(t, behaviour, k);
        AppliedKeepsConfiguration(t, Script(behaviour, k));
        DispatchFrom(t, revents, i + 1, k + 1, behaviour, quiet - 1);
        var owed := Owed(t.entries, revents, i);
        var calls := Dispatch(t, revents, i, k, behaviour).1;
        if quiet < |owed| {
          assert calls[..quiet + 1] == [calls[0]] + calls[1..][..quiet];
          assert owed[..quiet + 1] == [owed[0]] + owed[1..][..quiet];
        }
      }
    }
  }

  /** Up to and including the first handler that changes the table, every call
      is the one owed; if none changes it, the pass makes exactly the owed calls. */
  lemma DispatchIsPaired(t: Table, revents: seq<PollEvents>, behaviour: seq<seq<TableOp>>, quiet: nat)
    requires t.Valid() && |revents| == MAX_HANDLERS
    requires forall j :: 0 <= j < quiet ==> KeepsTable(t, behaviour, j)
    ensures var calls := Dispatch(t, revents, 0, 0, behaviour).1;
            var owed := Owed(t.entries, revents, 0);
            if quiet < |owed| then calls[..Min(|calls|, quiet + 1)] == owed[..quiet + 1]
            else calls == owed
  {
    DispatchFrom(t, revents, 0, 0, behaviour, quiet);
  }

  /** No entry behind index `i` has events. */
  ghost predicate QuietBehind(entries: seq<Registration>, revents: seq<PollEvents>, i: nat)
    requires |entries| <= |revents|
  {
    forall j {:trigger revents[j]} :: i < j < |entries| ==> FromPollEvents(revents[j]) == NO_EVENTS
  }

  /** Once an entry is gone, the entries behind it meet the events of the one before
      them, so what is called is what was owed only if none of those had events. */
  lemma {:induction false} ShiftedCalls(
      entries: seq<Registration>, rest: seq<Registration>, revents: seq<PollEvents>, from: nat)
    requires |entries| <= |revents| && |rest| + 1 == |entries| && from >= 1
    requires forall k :: from <= k < |rest| ==> rest[k] == entries[k + 1] && rest[k].fd != entries[k].fd
    ensures Owed(rest, revents, from) == Owed(entries, revents, from) <==> QuietBehind(entries, revents, from - 1)
    decreases |entries| - from
  {
    hide FromPollEvents;
    if from >= |entries| {
    } else if FromPollEvents(revents[from]) == NO_EVENTS {
      ShiftedCalls(entries, rest, revents, from + 1);
    } else {
      hide Owed;
      assert !QuietBehind(entries, revents, from - 1);
      OwedHead(entries, revents, from);
      OwedHead(rest, revents, from);
    }
  }

  lemma ShiftedTail(entries: seq<Registration>, revents: seq<PollEvents>, i: nat)
    requires DistinctFds(entries) && i < |entries| <= |revents|
    ensures Owed(entries[..i] + entries[i + 1..], revents, i + 1) == Owed(entries, revents, i + 1) <==>
            QuietBehind(entries, revents, i)
  {
    hide Owed, QuietBehind;
    ShiftedCalls(entries, entries[..i] + entries[i + 1..], revents, i + 1);
  }

  lemma OwedHead(entries: seq<Registration>, revents: seq<PollEvents>, i: nat)
    requires |entries| <= |revents| && i < |revents| && FromPollEvents(revents[i]) != NO_EVENTS
    ensures if i < |entries| then Owed(entries, revents, i) != [] && Owed(entries, revents, i)[0].fd == entries[i].fd
            else Owed(entries, revents, i) == []
  {
  }

  lemma RemovalApplies(t: Table, i: nat)
    requires t.initialized && DistinctFds(t.entries) && i < |t.entries|
    ensures var after := t.(entries := t.entries[..i] + t.entries[i + 1..]);
            Unregistered(t, t.entries[i].fd).0 == after && Applied(t, [Remove(t.entries[i].fd)]) == after
  {
    var fd := t.entries[i].fd;
    IndexOfIs(t.entries, fd, i);
    var after := Unregistered(t, fd).0;
    assert [Remove(fd)][1..] == [];
    assert Applied(t, [Remove(fd)]) == Applied(after, []);
  }

  /** What is called if the handler of the entry at `i` changes the table and those after it keep it. */
  lemma CallsAfterChange(t: Table, revents: seq<PollEvents>, i: nat, k: nat, behaviour: seq<seq<TableOp>>, after: Table)
    requires t.Valid() && after.Valid() && |revents| == MAX_HANDLERS
    requires i < |t.entries| && FromPollEvents(revents[i]) != NO_EVENTS
    requires Applied(t, Script(behaviour, k)) == after
    requires forall j :: k < j <= k + MAX_HANDLERS ==> KeepsTable(after, behaviour, j)
    ensures Dispatch(t, revents, i, k, behaviour).1 ==
            [Call(t.entries[i].fd, FromPollEvents(revents[i]), t.entries[i].callback)] + Owed(after.entries, revents, i + 1)
  {
    hide FromPollEvents, Applied, Script, KeepsTable, Owed;
    DispatchFrom(after, revents, i + 1, k + 1, behaviour, MAX_HANDLERS);
  }

  /** What a handler that unregisters itself does to the rest of the pass, if the handlers
      after it keep the table: the entries behind it are called for their predecessors'
      events, so the pass still pairs exactly when none of them had any. */
  lemma RemovalSkipsTheNextEntry(
      t: Table, revents: seq<PollEvents>, i: nat, k: nat, behaviour: seq<seq<TableOp>>)
    requires t.Valid() && t.initialized && |revents| == MAX_HANDLERS && DistinctFds(t.entries)
    requires i < |t.entries| && FromPollEvents(revents[i]) != NO_EVENTS
    requires Script(behaviour, k) == [Remove(t.entries[i].fd)]
    requires var after := Unregistered(t, t.entries[i].fd).0;
             forall j :: k < j <= k + MAX_HANDLERS ==> KeepsTable(after, behaviour, j)
    ensures var calls := Dispatch(t, revents, i, k, behaviour).1;
            var after := t.entries[..i] + t.entries[i + 1..];
            calls == [Call(t.entries[i].fd, FromPollEvents(revents[i]), t.entries[i].callback)] +
                     Owed(after, revents, i + 1) &&
            (calls == Owed(t.entries, revents, i) <==> QuietBehind(t.entries, revents, i))
  {
    hide FromPollEvents, Applied, Unregistered, Dispatch, Script, KeepsTable, QuietBehind, Owed, DistinctFds;
    RemovalApplies(t, i);
    var after := Unregistered(t, t.entries[i].fd).0;
    CallsAfterChange(t, revents, i, k, behaviour, after);
    ShiftedTail(t.entries, revents, i);
    OwedUnfolds(t.entries, revents, i);
    var call := Call(t.entries[i].fd, FromPollEvents(revents[i]), t.entries[i].callback);
    SameTail(call, Owed(after.entries, revents, i + 1), Owed(t.entries, revents, i + 1));
  }

  lemma OwedUnfolds(entries: seq<Registration>, revents: seq<PollEvents>, i: nat)
    requires |entries| <= |revents| && i < |entries| && FromPollEvents(revents[i]) != NO_EVENTS
    ensures Owed(entries, revents, i) ==
            [Call(entries[i].fd, FromPollEvents(revents[i]), entries[i].callback)] + Owed(entries, revents, i + 1)
  {
  }

  lemma SameTail(call: Call, made: seq<Call>, owed: seq<Call>)
    ensures [call] + made == [call] + owed <==> made == owed
  {
    assert ([call] + made)[1..] == made && ([call] + owed)[1..] == owed;
  }

  /** What a handler that registers a new entry does to the rest of the pass: the newcomer is met at
      the end of the table with events the poll never wrote for it, so the pass still pairs exactly
      when those happen to be none, or the table was full. */
  lemma AdditionMeetsUnpolledEvents(
      t: Table, revents: seq<PollEvents>, i: nat, k: nat, behaviour: seq<seq<TableOp>>, e: Registration)
    requires t.Valid() && t.initialized && |revents| == MAX_HANDLERS && e.fd >= 0
    requires i < |t.entries| && FromPollEvents(revents[i]) != NO_EVENTS
    requires Script(behaviour, k) == [Add(e)]
    requires forall j :: k < j <= k + MAX_HANDLERS ==> KeepsTable(Registered(t, e).0, behaviour, j)
    ensures var calls := Dispatch(t, revents, i, k, behaviour).1;
            if |t.entries| < t.maxHandlers && Signalled(revents[|t.entries|]) then
              calls == Owed(t.entries, revents, i) +
                       [Call(e.fd, FromPollEvents(revents[|t.entries|]), e.callback)]
            else calls == Owed(t.entries, revents, i)
  {
    var after := Registered(t, e).0;
    AdditionApplies(t, e);
    hide FromPollEvents, Applied, Dispatch, Script, KeepsTable, Owed;
    CallsAfterChange(t, revents, i, k, behaviour, after);
    OwedUnfolds(t.entries, revents, i);
    if |t.entries| < t.maxHandlers {
      OwedOfLonger(t.entries, e, revents, i + 1);
      BitsAreReported(e, revents[|t.entries|]);
    }
  }

  lemma AdditionApplies(t: Table, e: Registration)
    requires t.initialized && e.fd >= 0
    ensures var after := if |t.entries| < t.maxHandlers then t.(entries := t.entries + [e]) else t;
            Registered(t, e).0 == after && Applied(t, [Add(e)]) == after
  {
    assert [Add(e)][1..] == [];
    assert Applied(t, [Add(e)]) == Applied(Registered(t, e).0, []);
  }

  lemma {:induction false} OwedOfLonger(entries: seq<Registration>, e: Registration, revents: seq<PollEvents>, i: nat)
    requires |entries| < |revents| && i <= |entries|
    ensures Owed(entries + [e], revents, i) ==
            Owed(entries, revents, i) +
            if FromPollEvents(revents[|entries|]) == NO_EVENTS then []
            else [Call(e.fd, FromPollEvents(revents[|entries|]), e.callback)]
    decreases |entries| - i
  {
    hide FromPollEvents;
    if i == |entries| {
      assert Owed(entries + [e], revents, i + 1) == [];
    } else {
      OwedOfLonger(entries, e, revents, i + 1);
    }
  }
}
