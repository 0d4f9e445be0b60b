# Database data source: zone matching and zone iteration

A Dafny model of the database data-source contract of the BIND 10 / Kea
`datasrc` library (`src/lib/datasrc/database.h`). The header defines the
low-level interface a database backend implements (`DatabaseConnection`
with its `IteratorContext`) and the generic client built on it
(`DatabaseClient` with its `Finder`). The model covers:

- **Names** (`names.dfy`): a domain name is a sequence of labels, most
  specific first; the root is the empty sequence, and the ancestors of a
  name are the names left after stripping leading labels.
- **Rows and RRsets** (`rrsets.dfy`): the backend's raw `(name, rtype, ttl,
  data)` rows, the ordering obligation that the rows of one RRset come
  together (`Contiguous`), and the iterator's grouping of consecutive rows
  with equal `(name, rtype)` into RRsets (`Group`).
- **Connection** (`connection.dfy`): a backend as a map from zone apex
  names to opaque integer zone IDs, a map from each name on which its
  lookup throws a backend-specific error to that error's code, an
  iteration capability (the default NotImplemented, or supported with a
  map from the zone apexes on which the backend's override throws to the
  error code it throws), and a row stream per zone ID. `GetZone` is the exact-match lookup, `GetNext` the
  cursor step, `GetIteratorContext` the cursor factory.
- **Client** (`client.dfy`): construction from an optional connection,
  `FindZone` as a loop that strips one leading label per miss and returns
  the nearest registered ancestor-or-self zone (the zone search of section
  4.3.2 of RFC 1034), `GetIterator` with its fixed error order, and
  `IterateZone`, which reads a cursor to its end and groups the rows.

Exceptions become values: `Result<T>` is either `Ok(value)` or
`Err(error)` with `error` one of InvalidParameter, NotImplemented,
DataSourceError or an opaque `BackendError(code)` that is propagated
unchanged.

## Model

| member | source | states |
|---|---|---|
| `DatabaseConnection.GetZone` | src/lib/datasrc/database.h:56-75 | A lookup reports found exactly when the name is a registered apex, with that zone's ID; no suffix matching; it fails with the backend's own error, and only that, on the names where the backend throws. |
| `DatabaseConnection.GetNext` | src/lib/datasrc/database.h:98-120 | A row is returned exactly while rows remain, the first pending row is returned and removed; once it answers false the cursor is unchanged. |
| `DatabaseConnection.DrainReturnsAllRows` | src/lib/datasrc/database.h:114-115 | Calling the cursor step until it answers false returns exactly the zone's rows, in order. |
| `DatabaseConnection.ExhaustionIsTerminal` | src/lib/datasrc/database.h:114-115 | After the cursor has answered false it answers false again. |
| `DatabaseConnection.GetIteratorContext` | src/lib/datasrc/database.h:123-153 | Callable only with a name and ID from one successful lookup; succeeds exactly when the backend supports iteration and does not refuse this zone, fails with NotImplemented under the default implementation and with the backend's own error for a refused zone; the cursor covers the zone's row stream. |
| `RRsets.Group` | src/lib/datasrc/database.h:79-81 | Grouping keeps every row in order, gives non-empty RRsets no two neighbours of which share a key, and produces exactly the keys that occur in the rows. |
| `RRsets.ContiguousIffDistinctGroups` | src/lib/datasrc/database.h:104-106 | A row stream keeps each RRset's rows together if and only if grouping it yields every (name, type) exactly once. |
| `RRsets.GroupIsUnique` | src/lib/datasrc/database.h:104-106 | Any sequence of non-empty RRsets with distinct neighbouring keys whose rows are the stream is the grouping of that stream. |
| `RRsets.GroupingExample` | src/lib/datasrc/database.h:104-106 | Two rows of `a/A` followed by one row of `b/A` group into the RRset `a/A` with both records, then `b/A`. |
| `DatabaseClient.NewClient` | src/lib/datasrc/database.h:172-194 | Construction fails exactly when the connection is missing, and then only with InvalidParameter; otherwise the client owns the given connection. |
| `DatabaseClient.FinderKeepsZoneId` | src/lib/datasrc/database.h:212-236 | A finder's zone ID and connection are the ones it was constructed with. |
| `DatabaseClient.FirstHitIsNearest` | src/lib/datasrc/database.h:59-62 | When all longer candidates missed, the first candidate that is a registered apex is the longest registered suffix of the name. |
| `DatabaseClient.AllMissedMeansNoZone` | src/lib/datasrc/database.h:258-262 | When every candidate down to the root missed, no registered zone contains the name. |
| `DatabaseClient.FindZone` | src/lib/datasrc/database.h:251-263 | Match comes with a finder holding the connection and the ID of the nearest registered ancestor-or-self zone; NotFound, with no finder, exactly when no registered apex is a suffix of the name; a backend error is returned exactly when a lookup throws before a zone is found, and it is the error of the first failing candidate. |
| `DatabaseClient.NearestZoneIsUnique` | src/lib/datasrc/database.h:252-254 | A name has at most one nearest registered zone, so the zone search has one answer. |
| `DatabaseClient.NearestZoneOfApex` | src/lib/datasrc/database.h:252-254 | A name whose nearest zone is `Z` finds the same zone as `Z` itself. |
| `DatabaseClient.GetIterator` | src/lib/datasrc/database.h:264-280 | Errors come in a fixed order: the lookup's backend error, then DataSourceError when the name is not exactly an apex, then NotImplemented or the backend's refusal of that zone; on success the iterator covers exactly that zone's row stream. |
| `DatabaseClient.IterateZone` | src/lib/datasrc/database.h:98-120 | Reading the cursor to its end yields the grouping of the zone's rows, keeping every row, and each RRset exactly once when the stream is contiguous. |
| `DatabaseClient.IteratedZoneHasEachRRsetOnce` | src/lib/datasrc/database.h:104-106 | On a backend that keeps its ordering obligation, every zone the client can iterate yields each (name, type) once and all of its rows. |
| `Names.SubdomainIffStripped` | src/lib/datasrc/database.h:59-62 | The zones that can contain a name are exactly the names obtained by stripping leading labels from it, down to the root. |

## Left out

- `Finder::find`, `getOrigin` and `getClass` are only declared in the header (src/lib/datasrc/database.h:222-228); no resolution rules (CNAME, delegation, wildcard, NXRRSET) are modelled.
- The conversion of row strings into DNS names, types, TTLs and rdata, and its validation (src/lib/datasrc/database.h:79-81): rows are opaque string tuples here.
- RRset TTL policy: the grouping keeps each row's TTL and data as a record; no policy for rows of one RRset with different TTLs is chosen.
- Name comparison is exact label equality; DNS case-insensitive comparison is not modelled.
- `DatabaseConnection.GetZone`: the ID returned with a not-found answer is unspecified in the header; the model returns 0 and nothing depends on it.
- `DatabaseClient.FindZone`: the result codes are Match and NotFound; the code set of the generic client result type lives in `datasrc/client.h`, which is not part of this model.
- Backend-specific exceptions are modelled only where the header says they may arise: from the zone lookup (a per-name opaque error) and from creating an iterator context; the allocation failure the constructor may throw is not modelled.
- Ownership and lifetime (`auto_ptr`, `noncopyable`, the finder's reference into the client-owned connection) are memory management and are not modelled; the finder simply holds the connection value.
- Several connections or iterators sharing one database, and concurrent iterators (src/lib/datasrc/database.h:43-45, 83-88, 267-270), are concurrency concerns and are not modelled.
- `ldap_lease/lease4_select.cc` is a DHCP hook that only reads its arguments and prints them; it has no logic to model.
