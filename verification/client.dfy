/** The database data-source client: it owns one connection, finds the zone
    that best matches a name by walking up its labels, and builds the zone
    finder and zone iterator on top of the connection. */
module DatabaseClient {
  import opened Outcomes
  import opened Names
  import opened RRsets
  import opened DatabaseConnection

  datatype Client = Client(conn: Connection)

  /** Builds a client owning `conn`. A missing connection is rejected with
      InvalidParameter, and nothing else can go wrong. */
  function NewClient(conn: Option<Connection>): (r: Result<Client>)
    ensures r.Err? <==> conn.None?
    ensures r.Err? ==> r.error == InvalidParameter
    ensures r.Ok? ==> r.value.conn == conn.value
  {
    match conn
    case None => Err(InvalidParameter)
    case Some(c) => Ok(Client(c))
  }

  /** A zone finder, bound to the connection and to the zone ID that the
      connection's lookup returned. */
  datatype Finder = Finder(connection: Connection, zoneId: int)
  {
    /** The zone ID as passed to the constructor. */
    function ZoneId(): int {
      zoneId
    }
  }

  /** A finder reports exactly the zone ID and connection it was built with. */
  lemma FinderKeepsZoneId(conn: Connection, id: int)
    ensures Finder(conn, id).ZoneId() == id
    ensures Finder(conn, id).connection == conn
  {
  }

  datatype FindCode = Match | NotFound

  /** The outcome of a zone search: a code and a finder when a zone was found. */
  datatype FindZoneResult = FindZoneResult(code: FindCode, finder: Option<Finder>)

  /** `apex` is a registered zone containing `name`, and no registered zone
      containing `name` is more specific: the nearest ancestor (or `name`
      itself) holding a zone, as in the zone search of section 4.3.2 of
      RFC 1034. */
  predicate IsNearestZone(zones: set<Name>, name: Name, apex: Name) {
    && apex in zones
    && IsSubdomain(name, apex)
    && forall z :: z in zones && IsSubdomain(name, z) ==> |z| <= |apex|
  }

  /** The first `k` candidates, `name` with 0 to `k - 1` leading labels
      removed, were all looked up without a match and without a failure. */
  predicate Missed(conn: Connection, name: Name, k: int) {
    forall j :: 0 <= j < k && j <= |name| ==> name[j..] !in conn.zones && name[j..] !in conn.faults
  }

  /** A candidate that is missed is neither a zone nor a failing name, so
      the earliest matching candidate is the longest registered suffix. */
  lemma FirstHitIsNearest(conn: Connection, name: Name, k: int)
    requires 0 <= k <= |name|
    requires Missed(conn, name, k)
    requires name[k..] in conn.zones
    ensures IsNearestZone(conn.zones.Keys, name, name[k..])
  {
    forall z | z in conn.zones && IsSubdomain(name, z)
      ensures |z| <= |name[k..]|
    {
      SubdomainIffStripped(name, z);
    }
  }

  /** When every candidate up to the root is missed, no zone contains `name`. */
  lemma AllMissedMeansNoZone(conn: Connection, name: Name)
    requires Missed(conn, name, |name| + 1)
    ensures forall z :: z in conn.zones ==> !IsSubdomain(name, z)
  {
    forall z | z in conn.zones
      ensures !IsSubdomain(name, z)
    {
      SubdomainIffStripped(name, z);
    }
  }

  /** Finds the zone that best matches `name`: looks the name itself up
      with the connection's exact-match lookup and, on every miss, strips
      one leading label and tries again, down to the root. Backend errors
      are propagated unchanged. */
  method FindZone(client: Client, name: Name) returns (r: Result<FindZoneResult>)
    ensures r.Ok? ==> (r.value.code == NotFound <==> r.value.finder.None?)
    ensures r.Ok? && r.value.code == Match ==>
      exists apex :: IsNearestZone(client.conn.zones.Keys, name, apex) &&
        r.value.finder.Some? &&
        r.value.finder.value.ZoneId() == client.conn.zones[apex] &&
        r.value.finder.value.connection == client.conn
    ensures r.Ok? ==>
      (r.value.code == NotFound <==> forall z :: z in client.conn.zones ==> !IsSubdomain(name, z))
    ensures r.Err? <==>
      exists k :: 0 <= k <= |name| && Missed(client.conn, name, k) && name[k..] in client.conn.faults
    ensures r.Err? ==>
      exists k :: 0 <= k <= |name| && Missed(client.conn, name, k) && name[k..] in client.conn.faults &&
        r.error == BackendError(client.conn.faults[name[k..]])
  {
    var conn := client.conn;
    var candidate := name;
    var k := 0;
    while true
      invariant 0 <= k <= |name|
      invariant candidate == name[k..]
      invariant Missed(conn, name, k)
      decreases |candidate|
    {
      var lookup := GetZone(conn, candidate);
      if lookup.Err? {
        return Err(lookup.error);
      }
      if lookup.value.found {
        FirstHitIsNearest(conn, name, k);
        return Ok(FindZoneResult(Match, Some(Finder(conn, lookup.value.id))));
      }
      if candidate == Root {
        AllMissedMeansNoZone(conn, name);
        return Ok(FindZoneResult(NotFound, None));
      }
      candidate := Parent(candidate);
      k := k + 1;
    }
  }

  /** A name has at most one nearest zone: the result of a zone search is
      determined by the name and the registered zones alone. */
  lemma NearestZoneIsUnique(zones: set<Name>, name: Name, a: Name, b: Name)
    requires IsNearestZone(zones, name, a) && IsNearestZone(zones, name, b)
    ensures a == b
  {
    SubdomainsOfSameLength(name, a, b);
  }

  /** Any name below a zone apex that no more specific zone covers finds
      the same zone as the apex itself. */
  lemma NearestZoneOfApex(zones: set<Name>, name: Name, apex: Name)
    requires IsNearestZone(zones, name, apex)
    ensures IsNearestZone(zones, apex, apex)
  {
    forall z | z in zones && IsSubdomain(apex, z)
      ensures |z| <= |apex|
    {
    }
  }

  /** A zone iterator: the data source's wrapper around a backend cursor. */
  datatype ZoneIterator = ZoneIterator(cursor: Cursor)

  /** Returns an iterator over the zone whose apex is exactly `name`. The
      zone lookup comes first, so a failing lookup and a missing zone are
      reported before the connection is asked for a cursor, which therefore
      only ever receives a name and ID from a successful lookup. */
  function GetIterator(client: Client, name: Name): (r: Result<ZoneIterator>)
    ensures name in client.conn.faults ==> r == Err(BackendError(client.conn.faults[name]))
    ensures name !in client.conn.faults && name !in client.conn.zones ==> r == Err(DataSourceError)
    ensures name !in client.conn.faults && name in client.conn.zones ==>
      match client.conn.iteration
      case Unsupported => r == Err(NotImplemented)
      case Supported(refusals) =>
        if name in refusals then r == Err(BackendError(refusals[name])) else r.Ok?
    ensures r.Ok? ==>
      && name in client.conn.zones
      && r.value.cursor.pending == client.conn.Stream(client.conn.zones[name])
  {
    var lookup := GetZone(client.conn, name);
    if lookup.Err? then Err(lookup.error)
    else if !lookup.value.found then Err(DataSourceError)
    else
      var context := GetIteratorContext(client.conn, name, lookup.value.id);
      if context.Err? then Err(context.error) else Ok(ZoneIterator(context.value))
  }

  /** Reads the iterator's cursor to its end and returns the RRsets it forms,
      grouping consecutive rows that share an owner name and type. */
  method IterateZone(it: ZoneIterator) returns (sets: seq<RRset>)
    ensures sets == Group(it.cursor.pending)
    ensures Flatten(sets) == it.cursor.pending
    ensures Contiguous(it.cursor.pending) ==> DistinctKeys(sets)
  {
    ghost var rows := it.cursor.pending;
    var cursor := it.cursor;
    ghost var n := 0;
    sets := [];
    while true
      invariant 0 <= n <= |rows|
      invariant cursor.pending == rows[n..]
      invariant sets == Group(rows[..n])
      decreases |cursor.pending|
    {
      var fetch := GetNext(cursor);
      if !fetch.more {
        assert rows[..n] == rows;
        break;
      }
      GroupPrefixStep(rows, n);
      sets := AddRow(sets, fetch.row);
      cursor := fetch.next;
      n := n + 1;
    }
    ContiguousIffDistinctGroups(rows);
  }

  /** On a backend that keeps its ordering obligation, iterating any zone
      yields its rows as RRsets, each (name, type) exactly once, with no row
      lost or added. */
  lemma IteratedZoneHasEachRRsetOnce(client: Client, name: Name)
    requires client.conn.Valid()
    requires GetIterator(client, name).Ok?
    ensures var rows := GetIterator(client, name).value.cursor.pending;
      && rows == client.conn.Stream(client.conn.zones[name])
      && DistinctKeys(Group(rows))
      && Flatten(Group(rows)) == rows
  {
    ContiguousIffDistinctGroups(GetIterator(client, name).value.cursor.pending);
  }
}
