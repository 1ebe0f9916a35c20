/**
 The global ownership invariant over the static pools, the reactor table and the
 server: who holds which socket and file, and what is registered for whom.
*/
module Ownership {
  import opened Wire
  import opened Packet
  import opened Transports
  import opened Files
  import opened Reactors
  import opened ReactorLaws
  import opened Transfers
  import opened Servers

  const FREE_FILE := File(false, false, None)

  /** The transport slot an owner points at. The server and the transfers are the
      possible owners, named by their reactor callbacks. */
  ghost function Held(s: State, owner: Callback): Option<nat> {
    match owner
    case ServerCallback => s.server.transport
    case TransferCallback(i) =>
      if i < |s.core.transfers| then s.core.transfers[i].transport else None
  }

  ghost function Listening(s: State, owner: Callback): bool {
    match owner
    case ServerCallback => s.server.registered
    case TransferCallback(i) => i < |s.core.transfers| && s.core.transfers[i].registered
  }

  ghost predicate OpenSocket(v: Transport) {
    v.initialized && v.open && v.fd >= 0
  }

  /** Every used slot has exactly one owner, whose socket is open; unused slots are
      closed; open sockets have different descriptors. */
  ghost predicate TransportsOwned(s: State)
    requires WellFormedState(s)
  {
    var ts := s.core.transports;
    && (forall o :: Held(s, o).Some? ==>
          ts[Held(s, o).value].used && OpenSocket(ts[Held(s, o).value].transport))
    && (forall o, p :: Held(s, o).Some? && Held(s, o) == Held(s, p) ==> o == p)
    && (forall k :: 0 <= k < |ts| && ts[k].used ==> exists o :: Held(s, o) == Some(k))
    && (forall k :: 0 <= k < |ts| && !ts[k].used ==> !ts[k].transport.open)
    && (forall j, k :: 0 <= j < k < |ts| && ts[j].used && ts[k].used ==> ts[j].transport.fd != ts[k].transport.fd)
  }

  ghost predicate EntryOwned(s: State, e: Registration)
    requires WellFormedState(s)
  {
    && Held(s, e.callback).Some?
    && e.fd == s.core.transports[Held(s, e.callback).value].transport.fd
    && e.events == EventMask(true, false, true)
  }

  /** The table holds one entry for each owner, naming that owner's descriptor and asking for
      read and error events, and nothing else. */
  ghost predicate TableOwned(s: State)
    requires WellFormedState(s)
  {
    && s.core.table.initialized
    && DistinctFds(s.core.table.entries)
    && (forall e :: e in s.core.table.entries ==> EntryOwned(s, e))
    && (forall o :: Held(s, o).Some? ==> exists e :: e in s.core.table.entries && e.callback == o)
    && (forall o :: Listening(s, o) <==> Held(s, o).Some?)
  }

  /** Every file slot in use belongs to exactly one transfer and is open; the others are free. */
  ghost predicate FilesOwned(c: Core)
    requires WellFormed(c)
  {
    && (forall i :: 0 <= i < |c.transfers| && c.transfers[i].file.Some? ==>
          c.files[c.transfers[i].file.value].inUse && c.files[c.transfers[i].file.value].open)
    && (forall i, j :: 0 <= i < j < |c.transfers| && c.transfers[i].file.Some? ==>
          c.transfers[i].file != c.transfers[j].file)
    && (forall m :: 0 <= m < |c.files| && c.files[m].inUse ==>
          exists i :: 0 <= i < |c.transfers| && c.transfers[i].file == Some(m))
    && (forall m :: 0 <= m < |c.files| && !c.files[m].inUse ==> c.files[m] == FREE_FILE)
  }

  /** Between two events a transfer is either free and zeroed, or fully set up. */
  ghost predicate Settled(t: Transfer) {
    if t.inUse then
      t.initialized && t.registered && t.reactor && t.file.Some? && t.transport.Some? &&
      (t.state == WaitAck || t.state == Failed)
    else t == RESET
  }

  ghost predicate ServerSettled(server: Server) {
    && (server.running <==> server.transport.Some?)
    && (server.transport.Some? ==> server.initialized)
  }

  ghost predicate Owned(s: State) {
    && WellFormedState(s)
    && TransportsOwned(s)
    && TableOwned(s)
    && FilesOwned(s.core)
    && ServerSettled(s.server)
    && (forall i :: 0 <= i < |s.core.transfers| ==> Settled(s.core.transfers[i]))
  }

  lemma OwnedIsWellFormed(s: State)
    requires Owned(s)
    ensures WellFormedState(s)
  {
  }

  /** The system hands out a descriptor that no open socket has. */
  ghost predicate FreshSocket(c: Core, io: SocketIo) {
    io.SocketOpens? ==>
      forall k :: 0 <= k < |c.transports| && c.transports[k].transport.open ==> c.transports[k].transport.fd != io.fd
  }

  // ---------- an owner gains or loses its socket ----------

  /** `s'` is `s` with owner `o` holding slot `k` and registered by `e`. */
  ghost predicate Gains(s: State, s': State, o: Callback, k: nat, e: Registration) {
    && WellFormedState(s) && WellFormedState(s')
    && k < POOL_SIZE && !s.core.transports[k].used
    && Held(s, o).None?
    && (forall p :: Held(s', p) == if p == o then Some(k) else Held(s, p))
    && (forall p :: Listening(s', p) == (p == o || Listening(s, p)))
    && s'.core.transports[k].used && OpenSocket(s'.core.transports[k].transport)
    && s'.core.transports == s.core.transports[k := s'.core.transports[k]]
    && (forall j :: 0 <= j < POOL_SIZE && s.core.transports[j].transport.open ==>
          s.core.transports[j].transport.fd != s'.core.transports[k].transport.fd)
    && e.callback == o && e.fd == s'.core.transports[k].transport.fd && e.events == EventMask(true, false, true)
    && s'.core.table == s.core.table.(entries := s.core.table.entries + [e])
  }

  lemma GainsKeepsTransports(s: State, s': State, o: Callback, k: nat, e: Registration)
    requires Gains(s, s', o, k, e) && TransportsOwned(s)
    ensures TransportsOwned(s')
  {
  }

  lemma GainsKeepsTable(s: State, s': State, o: Callback, k: nat, e: Registration)
    requires Gains(s, s', o, k, e) && TransportsOwned(s) && TableOwned(s)
    ensures TableOwned(s')
  {
    var es, es' := s.core.table.entries, s'.core.table.entries;
    forall x | x in es' ensures EntryOwned(s', x) {
      if x in es {
        assert EntryOwned(s, x);
      }
    }
    forall a | 0 <= a < |es| ensures es[a].fd != e.fd {
      assert es[a] in es;
      assert EntryOwned(s, es[a]);
    }
    forall p | Held(s', p).Some? ensures exists x :: x in es' && x.callback == p {
      if p == o {
        assert es'[|es|] == e;
      } else {
        var x :| x in es && x.callback == p;
        assert x in es';
      }
    }
  }

  /** `s'` is `s` with owner `o` holding nothing, its slot cleared and its entry removed. */
  ghost predicate Loses(s: State, s': State, o: Callback) {
    && WellFormedState(s) && WellFormedState(s')
    && Held(s, o).Some?
    && (forall p :: Held(s', p) == if p == o then None else Held(s, p))
    && (forall p :: Listening(s', p) == (p != o && Listening(s, p)))
    && s'.core.transports == s.core.transports[Held(s, o).value := Slot(false, CLEARED)]
    && s'.core.table == s.core.table.(
         entries := Without(s.core.table.entries, s.core.transports[Held(s, o).value].transport.fd))
  }

  lemma LosesKeepsTransports(s: State, s': State, o: Callback)
    requires Loses(s, s', o) && TransportsOwned(s)
    ensures TransportsOwned(s')
  {
  }

  lemma LosesKeepsTable(s: State, s': State, o: Callback)
    requires Loses(s, s', o) && TransportsOwned(s) && TableOwned(s)
    ensures TableOwned(s')
  {
    var es, es' := s.core.table.entries, s'.core.table.entries;
    var k := Held(s, o).value;
    WithoutKeepsTheRest(es, s.core.transports[k].transport.fd);
    forall x | x in es' ensures EntryOwned(s', x) {
      assert EntryOwned(s, x);
      assert x.callback != o;
      assert Held(s, x.callback) != Some(k);
    }
    forall p | Held(s', p).Some? ensures exists x :: x in es' && x.callback == p {
      var x :| x in es && x.callback == p;
      assert EntryOwned(s, x);
      assert Held(s, p) != Held(s, o);
      assert x in es';
    }
  }

  /** The owner's entry is in the table, so unregistering its descriptor succeeds. */
  lemma OwnerIsRegistered(s: State, o: Callback)
    requires WellFormedState(s) && TransportsOwned(s) && TableOwned(s)
    requires Held(s, o).Some?
    ensures var fd := s.core.transports[Held(s, o).value].transport.fd;
            Unregistered(s.core.table, fd) ==
            (s.core.table.(entries := Without(s.core.table.entries, fd)), Ok)
  {
  }

  // ---------- the server ----------

  lemma StartKeepsOwned(s: State, socket: SocketIo, bindOk: bool)
    requires Owned(s) && FreshSocket(s.core, socket)
    ensures Owned(ServerStarted(s, socket, bindOk).0)
    ensures ServerStarted(s, socket, bindOk).1 == Ok <==>
            ServerStarted(s, socket, bindOk).0.server.running && !s.server.running
  {
    var (s', status) := ServerStarted(s, socket, bindOk);
    var k := FreeSlot(s.core.transports);
    if status == Ok {
      var v := s'.core.transports[k].transport;
      var e := Registration(FdOf(v), READ_AND_ERROR, ServerCallback);
      assert !Listening(s, ServerCallback);
      assert Gains(s, s', ServerCallback, k, e);
      GainsKeepsTransports(s, s', ServerCallback, k, e);
      GainsKeepsTable(s, s', ServerCallback, k, e);
    } else if s.server.initialized && !s.server.running && k < POOL_SIZE {
      FreedSlotKeepsOwned(s, s', k);
    } else {
      assert s' == s;
    }
  }

  /** Clearing a slot nobody holds changes nothing. */
  lemma FreedSlotKeepsOwned(s: State, s': State, k: nat)
    requires Owned(s) && k < POOL_SIZE && !s.core.transports[k].used
    requires s'.core == s.core.(transports := s.core.transports[k := Slot(false, CLEARED)])
    requires s'.server == s.server.(registered := false, running := false, transport := None)
    requires s.server.transport.None?
    ensures Owned(s')
  {
    assert !Listening(s, ServerCallback);
    assert forall o :: Held(s', o) == Held(s, o) && Listening(s', o) == Listening(s, o);
    var ts, ts' := s.core.transports, s'.core.transports;
    forall j | 0 <= j < |ts'| && ts'[j].used ensures exists p :: Held(s', p) == Some(j) {
      var p :| Held(s, p) == Some(j);
      assert Held(s', p) == Some(j);
    }
    forall e | e in s'.core.table.entries ensures EntryOwned(s', e) {
      assert EntryOwned(s, e);
    }
  }

  lemma StopKeepsOwned(s: State)
    requires Owned(s)
    ensures Owned(ServerStopped(s).0) && ServerStopped(s).1 == Ok && !ServerStopped(s).0.server.running
  {
    hide Unregistered, Without;
    var (s', status) := ServerStopped(s);
    if s.server.transport.Some? {
      assert Held(s, ServerCallback).Some?;
      assert Listening(s, ServerCallback);
      OwnerIsRegistered(s, ServerCallback);
      assert Loses(s, s', ServerCallback);
      LosesKeepsTransports(s, s', ServerCallback);
      LosesKeepsTable(s, s', ServerCallback);
    } else {
      assert s' == s;
    }
  }

  // ---------- the transfer handler ----------

  lemma LocalUpdateKeepsFiles(c: Core, i: nat, t': Transfer, f': File)
    requires WellFormed(c) && FilesOwned(c) && i < |c.transfers| && c.transfers[i].file.Some?
    requires SameHoldings(c.transfers[i], t', c.files[c.transfers[i].file.value], f')
    ensures FilesOwned(Updated(c, i, t', f'))
  {
    var c' := Updated(c, i, t', f');
    forall q | 0 <= q < |c'.files| && c'.files[q].inUse
      ensures exists j :: 0 <= j < |c'.transfers| && c'.transfers[j].file == Some(q)
    {
      var j :| 0 <= j < |c.transfers| && c.transfers[j].file == Some(q);
      assert c'.transfers[j].file == Some(q);
    }
  }

  lemma LocalUpdateKeepsOwned(s: State, i: nat, t': Transfer, f': File)
    requires Owned(s) && i < |s.core.transfers| && s.core.transfers[i].inUse
    requires SameHoldings(s.core.transfers[i], t', s.core.files[s.core.transfers[i].file.value], f')
    requires t'.state == WaitAck || t'.state == Failed
    ensures Owned(s.(core := Updated(s.core, i, t', f')))
  {
    hide FilesOwned;
    var c' := Updated(s.core, i, t', f');
    var s' := s.(core := c');
    assert forall o :: Held(s', o) == Held(s, o) && Listening(s', o) == Listening(s, o);
    assert TransportsOwned(s') by {
      forall k | 0 <= k < POOL_SIZE && s'.core.transports[k].used ensures exists o :: Held(s', o) == Some(k) {
        var o :| Held(s, o) == Some(k);
        assert Held(s', o) == Some(k);
      }
    }
    assert TableOwned(s') by {
      forall e | e in s'.core.table.entries ensures EntryOwned(s', e) {
        assert EntryOwned(s, e);
      }
    }
    LocalUpdateKeepsFiles(s.core, i, t', f');
  }

  lemma ClosedFileIsFree(f: File)
    requires f.Valid()
    ensures FileClosed(f, true).0.(inUse := false) == FREE_FILE
  {
  }

  lemma ReleaseKeepsFiles(c: Core, i: nat)
    requires WellFormed(c) && FilesOwned(c) && i < |c.transfers|
    ensures FilesOwned(Cleaned(c, i))
  {
    hide FileClosed, Unregistered;
    var c' := Cleaned(c, i);
    if c.transfers[i].file.Some? {
      ClosedFileIsFree(c.files[c.transfers[i].file.value]);
    }
    forall q | 0 <= q < |c'.files| && c'.files[q].inUse
      ensures exists j :: 0 <= j < |c'.transfers| && c'.transfers[j].file == Some(q)
    {
      var j :| 0 <= j < |c.transfers| && c.transfers[j].file == Some(q);
      assert c'.transfers[j].file == Some(q);
    }
  }

  /** Releasing a settled transfer frees its socket and file, and removes its entry and no other. */
  lemma ReleaseKeepsOwned(s: State, i: nat)
    requires Owned(s) && i < |s.core.transfers| && s.core.transfers[i].inUse
    ensures Owned(s.(core := Cleaned(s.core, i)))
    ensures var t, c' := s.core.transfers[i], Cleaned(s.core, i);
            t.transport.Some? && t.file.Some? &&
            c'.transfers == s.core.transfers[i := RESET] &&
            c'.transports == s.core.transports[t.transport.value := Slot(false, CLEARED)] &&
            c'.files == s.core.files[t.file.value := FREE_FILE] &&
            (forall e :: e in c'.table.entries <==> e in s.core.table.entries && e.callback != TransferCallback(i))
  {
    hide FileClosed, FilesOwned, Unregistered, Without;
    var o := TransferCallback(i);
    var c' := Cleaned(s.core, i);
    var s' := s.(core := c');
    assert Held(s, o).Some?;
    OwnerIsRegistered(s, o);
    assert Loses(s, s', o);
    LosesKeepsTransports(s, s', o);
    LosesKeepsTable(s, s', o);
    ReleaseKeepsFiles(s.core, i);
    ClosedFileIsFree(s.core.files[s.core.transfers[i].file.value]);
    RemovesItsEntry(s, o);
  }

  /** Without its descriptor the table holds the entries of the other owners. */
  lemma RemovesItsEntry(s: State, o: Callback)
    requires WellFormedState(s) && TransportsOwned(s) && TableOwned(s) && Held(s, o).Some?
    ensures var fd := s.core.transports[Held(s, o).value].transport.fd;
            forall e :: e in Without(s.core.table.entries, fd) <==> e in s.core.table.entries && e.callback != o
  {
    var entries := s.core.table.entries;
    var fd := s.core.transports[Held(s, o).value].transport.fd;
    WithoutKeepsTheRest(entries, fd);
    hide Without;
    forall e | e in entries ensures e.fd == fd <==> e.callback == o {
      assert EntryOwned(s, e);
    }
  }

  /** What a transfer wrote into its own fields does not matter once it is released. */
  lemma ReleaseForgets(c: Core, i: nat, t': Transfer, f': File)
    requires WellFormed(c) && i < |c.transfers| && c.transfers[i].file.Some?
    requires SameHoldings(c.transfers[i], t', c.files[c.transfers[i].file.value], f')
    ensures Cleaned(Updated(c, i, t', f'), i) == Cleaned(c, i)
  {
  }

  lemma TransferReadyKeepsOwned(s: State, i: nat, n: Notice)
    requires Owned(s) && i < |s.core.transfers|
    ensures Owned(s.(core := TransferReady(s.core, i, n).core))
  {
    var t := s.core.transfers[i];
    if t.transport.Some? {
      var f := FileOf(s.core, t);
      var v := s.core.transports[t.transport.value].transport;
      var r := OnReady(t, f, v, n);
      if r.release {
        ReleaseForgets(s.core, i, r.transfer, r.file);
        ReleaseKeepsOwned(s, i);
      } else {
        LocalUpdateKeepsOwned(s, i, r.transfer, r.file);
      }
    } else {
      assert s.(core := TransferReady(s.core, i, n).core) == s;
    }
  }
}
