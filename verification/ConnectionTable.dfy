/** The data that only the event loop's thread touches, with the kernel tables
    behind it, and what each piece of src/server/event_loop.cpp does to it.
 */
module ConnectionTables {
  import opened Wire
  import opened Dispatching

  /** A connection between two calls: its undecoded input and unsent output. */
  datatype Client = Client(id: nat, unread: Bytes, pending: Bytes)

  datatype Table = Table(
    conns: map<int, Client>,   // `connections_`
    nextId: nat,               // `next_connection_id_`
    reserved: set<int>,        // open descriptors that are no clients
    open: set<int>,            // the process's descriptor table
    watched: map<int, bool>)   // client registrations: is EPOLLOUT armed?

  predicate InitialTable(t: Table) {
    t.conns == map[] && t.nextId == 1 && t.open == t.reserved && t.watched == map[]
  }

  /** `t.conns` owns exactly the open client descriptors, under distinct ids
      already handed out, and epoll watches exactly these, for output exactly
      when there is some. */
  ghost predicate TableInv(t: Table) {
    && t.nextId > 0
    && t.open == t.reserved + t.conns.Keys
    && t.reserved !! t.conns.Keys
    && t.watched.Keys == t.conns.Keys
    && (forall fd :: fd in t.conns ==> fd >= 0 && 0 < t.conns[fd].id < t.nextId)
    && (forall fd, fd' :: fd in t.conns && fd' in t.conns && t.conns[fd].id == t.conns[fd'].id ==> fd == fd')
    && (forall fd :: fd in t.conns ==> (t.watched[fd] <==> t.conns[fd].pending != []))
  }

  /** close(2) of the last reference also drops the epoll registration. */
  function KernelClosed(t: Table, fd: int): Table {
    t.(open := t.open - {fd}, watched := t.watched - {fd})
  }

  /** `closeConnection` */
  function Closed(t: Table, fd: int): Table {
    if fd in t.conns then KernelClosed(t.(conns := t.conns - {fd}), fd) else t
  }

  /** One round of the accept loop for the descriptor the kernel returned: a
      duplicate is closed again, as is a descriptor epoll does not take. */
  function Accepted(t: Table, fd: int, addOk: bool): Table {
    var t1 := t.(nextId := t.nextId + 1, open := t.open + {fd});
    if fd in t.conns then KernelClosed(t1, fd)
    else
      var t2 := t1.(conns := t.conns[fd := Client(t.nextId, [], [])]);
      if addOk then t2.(watched := t2.watched[fd := false]) else Closed(t2, fd)
  }

  /** epoll_ctl(2) refuses to modify what is not registered. */
  predicate ModifySucceeds(t: Table, fd: int, modifyOk: bool) {
    modifyOk && fd in t.watched
  }

  /** `updateInterest`, and the close its callers add when it fails. */
  function InterestUpdated(t: Table, fd: int, modifyOk: bool): Table {
    if fd !in t.conns then t
    else if ModifySucceeds(t, fd, modifyOk) then t.(watched := t.watched[fd := t.conns[fd].pending != []])
    else Closed(t, fd)
  }

  predicate Addressed(t: Table, r: Result) {
    r.fd in t.conns && t.conns[r.fd].id == r.id
  }

  /** One round of the dispatch loop in `handleProcessingResults`. */
  function Dispatched(t: Table, r: Result, modifyOk: bool): Table {
    if !Addressed(t, r) then t
    else if |r.response| > MAX_PAYLOAD_SIZE then Closed(t, r.fd)
    else
      var c := t.conns[r.fd];
      InterestUpdated(t.(conns := t.conns[r.fd := c.(pending := c.pending + Encode(r.response))]), r.fd, modifyOk)
  }

  function Received(t: Table, fd: int, left: Bytes): Table
    requires fd in t.conns
  {
    t.(conns := t.conns[fd := t.conns[fd].(unread := left)])
  }

  /** The end of `handleClientEvent`: flush, then close or update the interest. */
  function Flushed(t: Table, fd: int, sent: nat, writeFailed: bool, modifyOk: bool): Table
    requires fd in t.conns && sent <= |t.conns[fd].pending|
  {
    var c := t.conns[fd];
    var t1 := t.(conns := t.conns[fd := c.(pending := c.pending[sent..])]);
    if writeFailed then Closed(t1, fd) else InterestUpdated(t1, fd, modifyOk)
  }

  lemma InsertedInv(t: Table, fd: int)
    requires TableInv(t) && fd >= 0 && fd !in t.open
    ensures TableInv(t.(conns := t.conns[fd := Client(t.nextId, [], [])], nextId := t.nextId + 1,
                        open := t.open + {fd}, watched := t.watched[fd := false]))
  {
  }

  /** The kernel returns a descriptor that is not open, so the duplicate arm of
      the accept loop is dead, and a refused registration leaves no trace. */
  lemma AcceptedInv(t: Table, fd: int, addOk: bool)
    requires TableInv(t) && fd >= 0 && fd !in t.open
    ensures fd !in t.conns && TableInv(Accepted(t, fd, addOk))
    ensures Accepted(t, fd, addOk).nextId == t.nextId + 1
    ensures Accepted(t, fd, addOk).conns == if addOk then t.conns[fd := Client(t.nextId, [], [])] else t.conns
  {
    if addOk {
      InsertedInv(t, fd);
    } else {
      assert t.conns[fd := Client(t.nextId, [], [])] - {fd} == t.conns;
      assert t.open + {fd} - {fd} == t.open && t.watched - {fd} == t.watched;
      assert Accepted(t, fd, addOk) == t.(nextId := t.nextId + 1);
    }
  }

  lemma ClosedInv(t: Table, fd: int)
    requires TableInv(t)
    ensures TableInv(Closed(t, fd))
  {
  }

  /** Appending output or sending some leaves the interest stale only until it
      is updated; when that fails the connection goes. */
  lemma InterestRestored(t: Table, fd: int, c: Client, modifyOk: bool)
    requires TableInv(t) && fd in t.conns && c.id == t.conns[fd].id
    ensures TableInv(InterestUpdated(t.(conns := t.conns[fd := c]), fd, modifyOk))
  {
    if modifyOk {
      var conns, watched := t.conns[fd := c], t.watched[fd := c.pending != []];
      assert conns.Keys == t.conns.Keys == watched.Keys;
      assert forall fd' :: fd' in conns ==> conns[fd'].id == t.conns[fd'].id;
      assert forall fd' :: fd' in conns && fd' != fd ==> conns[fd'] == t.conns[fd'] && watched[fd'] == t.watched[fd'];
      assert TableInv(t.(conns := conns, watched := watched));
    } else {
      ReplacedThenClosed(t, fd, c);
    }
  }

  lemma ReplacedThenClosed(t: Table, fd: int, c: Client)
    requires TableInv(t) && fd in t.conns
    ensures Closed(t.(conns := t.conns[fd := c]), fd) == Closed(t, fd) && TableInv(Closed(t, fd))
  {
    assert t.conns[fd := c] - {fd} == t.conns - {fd};
  }

  lemma DispatchedInv(t: Table, r: Result, modifyOk: bool)
    requires TableInv(t)
    ensures TableInv(Dispatched(t, r, modifyOk))
  {
    if Addressed(t, r) && |r.response| <= MAX_PAYLOAD_SIZE {
      var c := t.conns[r.fd];
      InterestRestored(t, r.fd, c.(pending := c.pending + Encode(r.response)), modifyOk);
    }
  }

  lemma ReceivedInv(t: Table, fd: int, left: Bytes)
    requires TableInv(t) && fd in t.conns
    ensures TableInv(Received(t, fd, left))
  {
    assert Received(t, fd, left).conns.Keys == t.conns.Keys;
  }

  lemma FlushedInv(t: Table, fd: int, sent: nat, writeFailed: bool, modifyOk: bool)
    requires TableInv(t) && fd in t.conns && sent <= |t.conns[fd].pending|
    ensures TableInv(Flushed(t, fd, sent, writeFailed, modifyOk))
  {
    var c := t.conns[fd].(pending := t.conns[fd].pending[sent..]);
    InterestRestored(t, fd, c, modifyOk);
    ReplacedThenClosed(t, fd, c);
  }

  /** A result changes nothing but the connection whose descriptor and id it
      carries; that one keeps its input and gains the response, or it is closed,
      and it is closed exactly when the response is too long or epoll refuses. */
  lemma DispatchedOutcome(t: Table, r: Result, modifyOk: bool)
    requires TableInv(t)
    ensures !Addressed(t, r) ==> Dispatched(t, r, modifyOk) == t
    ensures Dispatched(t, r, modifyOk).conns - {r.fd} == t.conns - {r.fd}
    ensures Addressed(t, r) ==>
              (r.fd in Dispatched(t, r, modifyOk).conns <==> |r.response| <= MAX_PAYLOAD_SIZE && modifyOk)
    ensures Addressed(t, r) && r.fd in Dispatched(t, r, modifyOk).conns ==>
              Dispatched(t, r, modifyOk).conns[r.fd] ==
              t.conns[r.fd].(pending := t.conns[r.fd].pending + Encode(r.response))
  {
  }

  /** An ended event keeps the connection exactly when nothing failed, and takes
      from its output exactly the bytes sent. */
  lemma FlushedOutcome(t: Table, fd: int, sent: nat, writeFailed: bool, modifyOk: bool)
    requires TableInv(t) && fd in t.conns && sent <= |t.conns[fd].pending|
    ensures Flushed(t, fd, sent, writeFailed, modifyOk).conns - {fd} == t.conns - {fd}
    ensures fd in Flushed(t, fd, sent, writeFailed, modifyOk).conns <==> !writeFailed && modifyOk
    ensures fd in Flushed(t, fd, sent, writeFailed, modifyOk).conns ==>
              Flushed(t, fd, sent, writeFailed, modifyOk).conns[fd] ==
              t.conns[fd].(pending := t.conns[fd].pending[sent..])
  {
  }
}
