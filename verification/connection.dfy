/** The low-level contract a database backend offers the data source:
    exact-name zone lookup, and (optionally) a cursor over one zone's rows.

    A connection is modelled as the data it would answer from: the
    registered zone apexes with their backend-assigned IDs, the names on
    which its lookup throws a backend-specific error (each with its error
    code), whether and for which zones it supports iteration, and the row
    stream of each zone ID. */
module DatabaseConnection {
  import opened Outcomes
  import opened Names
  import opened RRsets

  /** What creating an iterator context does on this backend. */
  datatype Iteration =
    /** The default implementation: iteration is an unimplemented option. */
    | Unsupported
    /** The backend overrides the default and hands out cursors, except for
        the zones (by apex) on which its override throws one of its own errors. */
    | Supported(refusals: map<Name, int>)

  datatype Connection = Connection(
    zones: map<Name, int>,
    faults: map<Name, int>,
    iteration: Iteration,
    streams: map<int, seq<Row>>)
  {
    /** The rows of the zone with ID `id`; a zone without a stream is empty. */
    function Stream(id: int): seq<Row> {
      if id in streams then streams[id] else []
    }

    /** The backend honours its ordering obligation on every zone. */
    predicate Valid() {
      forall id :: id in streams ==> Contiguous(streams[id])
    }
  }

  /** The answer of a successful zone lookup; `id` is only meaningful when
      `found` holds, and is 0 otherwise. */
  datatype ZoneLookup = ZoneLookup(found: bool, id: int)

  /** Looks up a zone whose apex is exactly `name`. No suffix matching is
      done here; the client walks up the labels itself. The backend may
      throw anything, modelled as its opaque error for the names in
      `faults`. */
  function GetZone(conn: Connection, name: Name): (r: Result<ZoneLookup>)
    ensures r.Err? <==> name in conn.faults
    ensures r.Err? ==> r.error == BackendError(conn.faults[name])
    ensures r.Ok? ==> (r.value.found <==> name in conn.zones)
    ensures r.Ok? && r.value.found ==> r.value.id == conn.zones[name]
  {
    if name in conn.faults then Err(BackendError(conn.faults[name]))
    else if name in conn.zones then Ok(ZoneLookup(true, conn.zones[name]))
    else Ok(ZoneLookup(false, 0))
  }

  /** The backend's position within one zone's row stream: the rows not yet read. */
  datatype Cursor = Cursor(pending: seq<Row>)

  /** The outcome of one `GetNext`: whether a row was returned, the row
      (meaningless when `more` is false) and the cursor after the call. */
  datatype Fetch = Fetch(more: bool, row: Row, next: Cursor)

  /** Provides the next row of the zone. Once it answers `more == false` the
      zone has been read to its end, and it keeps answering so. */
  function GetNext(c: Cursor): (f: Fetch)
    ensures !f.more <==> c.pending == []
    ensures f.more ==> f.row == c.pending[0] && f.next.pending == c.pending[1..]
    ensures !f.more ==> f.next == c
  {
    if c.pending == [] then Fetch(false, Row("", "", 0, ""), c)
    else Fetch(true, c.pending[0], Cursor(c.pending[1..]))
  }

  /** Creates the cursor for one zone. The caller guarantees that `name` and
      `id` come from one successful lookup. Without iteration support this
      fails with NotImplemented; a backend that supports iteration may still
      throw its own error for a zone. */
  function GetIteratorContext(conn: Connection, name: Name, id: int): (r: Result<Cursor>)
    requires name in conn.zones && conn.zones[name] == id
    ensures r.Ok? <==> conn.iteration.Supported? && name !in conn.iteration.refusals
    ensures conn.iteration == Unsupported ==> r == Err(NotImplemented)
    ensures conn.iteration.Supported? && name in conn.iteration.refusals ==>
      r == Err(BackendError(conn.iteration.refusals[name]))
    ensures r.Ok? ==> r.value.pending == conn.Stream(conn.zones[name])
  {
    match conn.iteration
    case Unsupported => Err(NotImplemented)
    case Supported(refusals) =>
      if name in refusals then Err(BackendError(refusals[name]))
      else Ok(Cursor(conn.Stream(id)))
  }

  /** Repeatedly calling `GetNext` returns exactly the rows of the stream,
      in order, and then reports the end. */
  lemma {:induction false} DrainReturnsAllRows(c: Cursor)
    ensures Drain(c) == c.pending
    decreases |c.pending|
  {
    var f := GetNext(c);
    if f.more {
      DrainReturnsAllRows(f.next);
    }
  }

  /** The rows a consumer sees by calling `GetNext` until it answers false. */
  function Drain(c: Cursor): seq<Row>
    decreases |c.pending|
  {
    var f := GetNext(c);
    if f.more then [f.row] + Drain(f.next) else []
  }

  /** Reaching the end is terminal: after `GetNext` has answered false it
      answers false again. */
  lemma ExhaustionIsTerminal(c: Cursor)
    requires !GetNext(c).more
    ensures !GetNext(GetNext(c).next).more
  {
  }
}
