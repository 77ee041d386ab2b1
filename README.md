# HistoricalLocation relinking in FROST-Server, modelled in Dafny

FROST-Server stores SensorThings API entities in a relational database. When a
HistoricalLocation is inserted for a Thing, `AbstractTableHistLocations.insertIntoDatabase`
decides whether that event is the newest one of its Thing and, if so, makes the
event's Locations the Thing's current Locations (the `THINGS_LOCATIONS` link
table). The rule follows OGC SensorThings issue #30: the new event wins unless
another HistoricalLocation of the same Thing is strictly later. The same class
keeps a static, lazily created table instance keyed by the id column type
(`getInstance`).

This project models both pieces.

- `ids.dfy` (module `Ids`): entity ids (long or string), `Option`, and a `Result`
  whose error side is the `NoSuchEntityException` the insert can throw.
- `hist_locations_spec.dfy` (module `HistLocationsSpec`): the database as a value.
  It holds the `HIST_LOCATIONS` rows `(id, thingId, time)` in insertion order, the
  set of `THINGS_LOCATIONS` rows `(thingId, locationId)`, and the set of Location
  ids that exist. `Insert` is the whole insert as a function from the old state
  to the new state plus the result. `ApplyAll` runs a sequence of inserts.
  `LatestFor` names the event whose Locations should end up current. The lemmas
  state what one insert does and what a sequence of inserts converges to.
- `hist_locations_table.dfy` (module `HistLocationsTable`): the imperative model.
  `PersistenceManager` holds the tables as mutable fields. Its methods are the
  statements the insert runs against the database: append a row, the "strictly
  later row" query, the delete, the single-row link insert, and the Location
  existence check. `AbstractTableHistLocations.InsertIntoDatabase` runs those
  steps in the source's order, with the linking `for` loop in `LinkLocations`.
  It is proved to produce exactly the state and result of `HistLocationsSpec.Insert`.
  `InstanceCache` holds the two static fields, and `GetInstance` is the cache.

Times are epoch milliseconds as unbounded integers. Line 115 builds the
comparison value `newTime` from the new entity's time at millisecond
precision. The stored `TIME` column was written earlier (line 107) by the
superclass, through the converter registered at lines 98-100, and the query at
line 122 compares it at whatever precision it holds. The model assumes that every
stored time is a whole number of milliseconds (see "## Left out").
`NewRowNeverLater` and the rule that an equal time does not block a relink rest
on that assumption.

The code differs from the behaviour one might expect in four places, and
the model follows the code:

- The code checks the Location entries only on the relink branch. It checks them
  one at a time, after the delete and after the earlier entries were linked. It
  does not check every entry first, and it can fail after writing. The model
  keeps the appended row, the delete and the earlier links in the state it
  returns alongside the error. Undoing them is the job of the surrounding
  transaction, which is not modelled.
- The code returns `true`, not a count of the relinked rows.
- The code breaks ties between equal timestamps deterministically. The test is
  `time > newTime`, so an equal time does not block a relink, and among events
  with the maximal time the one inserted last wins (`LatestFor`,
  `LatestForIsMaximal`, `ApplyAllTracksLatest`).
- Asking the cache for a different id type raises no error. `getInstance`
  returns a fresh, uncached instance, and the model does the same.

## Model

| member | source | states |
|---|---|---|
| `HistLocationsSpec.Insert` | FROST-Server.SQLjooq/src/main/java/de/fraunhofer/iosb/ilt/frostserver/persistence/pgjooq/tables/AbstractTableHistLocations.java:106-152 | The new HistoricalLocation row is always appended, the existing Location ids are untouched, and a successful insert returns `true`, whether or not a relink happens |
| `HistLocationsSpec.FirstMissing` | FROST-Server.SQLjooq/src/main/java/de/fraunhofer/iosb/ilt/frostserver/persistence/pgjooq/tables/AbstractTableHistLocations.java:137-139 | The index of the first entry with no id or a non-existent id: every earlier entry is valid, and the entry at the index (if any) is not |
| `HistLocationsSpec.NewRowNeverLater` | FROST-Server.SQLjooq/src/main/java/de/fraunhofer/iosb/ilt/frostserver/persistence/pgjooq/tables/AbstractTableHistLocations.java:107-125 | Searching after the row is appended gives the same answer as searching before: the new row never counts as later than itself |
| `HistLocationsSpec.LaterRowLeavesLinksUnchanged` | FROST-Server.SQLjooq/src/main/java/de/fraunhofer/iosb/ilt/frostserver/persistence/pgjooq/tables/AbstractTableHistLocations.java:120-126 | If a row of the same Thing has a strictly greater time, the insert only appends its row and returns `true`. The link table is unchanged, and the Location entries are not checked, so even invalid ones cause no error |
| `HistLocationsSpec.RelinkReplacesLinks` | FROST-Server.SQLjooq/src/main/java/de/fraunhofer/iosb/ilt/frostserver/persistence/pgjooq/tables/AbstractTableHistLocations.java:122-148 | With no strictly later row (equal times included) and every entry valid, the insert succeeds. Afterwards `(thing, l)` is a link exactly when `l` is one of the new Locations, so an empty list leaves the Thing with no links |
| `HistLocationsSpec.OtherThingsUntouched` | FROST-Server.SQLjooq/src/main/java/de/fraunhofer/iosb/ilt/frostserver/persistence/pgjooq/tables/AbstractTableHistLocations.java:129-146 | In every branch, including the failing one, the link rows of any other Thing are exactly as before |
| `HistLocationsSpec.FailsIffMissingWhenRelinking` | FROST-Server.SQLjooq/src/main/java/de/fraunhofer/iosb/ilt/frostserver/persistence/pgjooq/tables/AbstractTableHistLocations.java:120-140 | The insert throws exactly when no strictly later row exists and some entry has no id or a non-existent id. The exception is `NoSuchEntity("Location with no id.")` |
| `HistLocationsSpec.FailureKeepsEarlierLinks` | FROST-Server.SQLjooq/src/main/java/de/fraunhofer/iosb/ilt/frostserver/persistence/pgjooq/tables/AbstractTableHistLocations.java:129-148 | When entry k is the first invalid one in the relink branch, the insert throws. By then the Thing's old links are gone and it is linked to exactly the Locations of the entries before k |
| `HistLocationsSpec.ReinsertIsIdempotent` | FROST-Server.SQLjooq/src/main/java/de/fraunhofer/iosb/ilt/frostserver/persistence/pgjooq/tables/AbstractTableHistLocations.java:117-148 | Right after a successful insert, inserting an event with the same Thing, time and Locations (any id) also succeeds and leaves the link table identical |
| `HistLocationsSpec.LatestForNone` | FROST-Server.SQLjooq/src/main/java/de/fraunhofer/iosb/ilt/frostserver/persistence/pgjooq/tables/AbstractTableHistLocations.java:117-126 | There is no latest event of a Thing exactly when the sequence holds no event of that Thing |
| `HistLocationsSpec.LatestForIsMaximal` | FROST-Server.SQLjooq/src/main/java/de/fraunhofer/iosb/ilt/frostserver/persistence/pgjooq/tables/AbstractTableHistLocations.java:117-126 | The latest event of a Thing is one of its events with the maximum time, and every event of that Thing inserted after it has a strictly smaller time (the last-inserted one wins a tie) |
| `HistLocationsSpec.ApplyAllTracksLatest` | FROST-Server.SQLjooq/src/main/java/de/fraunhofer/iosb/ilt/frostserver/persistence/pgjooq/tables/AbstractTableHistLocations.java:117-148 | Start with no row for the Thing and run inserts that all succeed. If the Thing has no event, its links are unchanged. Otherwise its links are exactly those of its latest event, and that event's time is the greatest time among its rows |
| `HistLocationsSpec.DistinctTimesConverge` | FROST-Server.SQLjooq/src/main/java/de/fraunhofer/iosb/ilt/frostserver/persistence/pgjooq/tables/AbstractTableHistLocations.java:117-126 | Start with no row for the Thing and run successful inserts in which its events have pairwise distinct times. Its links then equal the Location set of its event with the maximum time |
| `HistLocationsSpec.LatestForReordered` | FROST-Server.SQLjooq/src/main/java/de/fraunhofer/iosb/ilt/frostserver/persistence/pgjooq/tables/AbstractTableHistLocations.java:117-126 | Any permutation of a sequence of events with distinct times for the Thing has the same latest event |
| `HistLocationsSpec.OrderIndependent` | FROST-Server.SQLjooq/src/main/java/de/fraunhofer/iosb/ilt/frostserver/persistence/pgjooq/tables/AbstractTableHistLocations.java:117-148 | Two successful runs of the same events in different orders, with distinct times for the Thing, leave the Thing with the same links |
| `HistLocationsTable.PersistenceManager.AppendHistLocation` | FROST-Server.SQLjooq/src/main/java/de/fraunhofer/iosb/ilt/frostserver/persistence/pgjooq/tables/AbstractTableHistLocations.java:107 | The new row goes at the end of `HIST_LOCATIONS`, and nothing else changes |
| `HistLocationsTable.PersistenceManager.FindLater` | FROST-Server.SQLjooq/src/main/java/de/fraunhofer/iosb/ilt/frostserver/persistence/pgjooq/tables/AbstractTableHistLocations.java:120-125 | The query finds a row exactly when some row of the Thing has a strictly greater time |
| `HistLocationsTable.PersistenceManager.DeleteLinks` | FROST-Server.SQLjooq/src/main/java/de/fraunhofer/iosb/ilt/frostserver/persistence/pgjooq/tables/AbstractTableHistLocations.java:130-133 | Every link row of the Thing is deleted, and the rows of other Things remain |
| `HistLocationsTable.PersistenceManager.InsertLink` | FROST-Server.SQLjooq/src/main/java/de/fraunhofer/iosb/ilt/frostserver/persistence/pgjooq/tables/AbstractTableHistLocations.java:143-146 | Exactly the row `(thingId, locationId)` is added to the link table |
| `HistLocationsTable.PersistenceManager.LocationExists` | FROST-Server.SQLjooq/src/main/java/de/fraunhofer/iosb/ilt/frostserver/persistence/pgjooq/tables/AbstractTableHistLocations.java:138 | The stand-in for the external `entityExists` call: the existence check is taken to be true exactly for ids of existing Locations. This is an abstraction, not a proved property |
| `HistLocationsTable.AbstractTableHistLocations.InsertIntoDatabase` | FROST-Server.SQLjooq/src/main/java/de/fraunhofer/iosb/ilt/frostserver/persistence/pgjooq/tables/AbstractTableHistLocations.java:106-152 | The step-by-step insert leaves exactly the state and result of `HistLocationsSpec.Insert`, so the lemmas above hold of it. Its table lookup fills an empty instance cache with this table's id type and leaves a filled one as it was |
| `HistLocationsTable.AbstractTableHistLocations.LinkLocations` | FROST-Server.SQLjooq/src/main/java/de/fraunhofer/iosb/ilt/frostserver/persistence/pgjooq/tables/AbstractTableHistLocations.java:137-148 | The loop adds one link per entry before the first invalid one. It returns `true` if every entry is valid, and otherwise the `NoSuchEntity` error |
| `HistLocationsTable.AbstractTableHistLocations.constructor` | FROST-Server.SQLjooq/src/main/java/de/fraunhofer/iosb/ilt/frostserver/persistence/pgjooq/tables/AbstractTableHistLocations.java:68-70 | A new table instance carries the id type it was created with |
| `HistLocationsTable.InstanceCache.constructor` | FROST-Server.SQLjooq/src/main/java/de/fraunhofer/iosb/ilt/frostserver/persistence/pgjooq/tables/AbstractTableHistLocations.java:35-36 | Both static fields start empty, which satisfies the cache invariant |
| `HistLocationsTable.InstanceCache.GetInstance` | FROST-Server.SQLjooq/src/main/java/de/fraunhofer/iosb/ilt/frostserver/persistence/pgjooq/tables/AbstractTableHistLocations.java:38-48 | The returned table always has the requested id type, and the cache invariant is kept. The first call caches a fresh instance and its id type. A later call with an equal id type returns the cached instance. A later call with a different id type returns a fresh instance and changes neither field |

## Left out

- jOOQ query construction and execution, the column declarations and the `as(...)` aliases (lines 50-63, 72-74, 168-176). The model works on sequences and sets, not queries. The query's `orderBy ... limit 1` only selects which later row is fetched, and the model keeps only whether one exists.
- `initRelations` and `initProperties` (lines 76-103). They only register accessors with relation and property registries whose code is not part of this model.
- The getters `getEntityType`, `getId`, `getThingId` and `getThis` (lines 154-166, 178-181). They return constants or fields and carry no logic.
- What `super.insertIntoDatabase` does besides storing the row (line 107): id generation, checks on the Thing, and its own exceptions. The row's id is an input to the model, and the Thing is assumed to be resolved.
- A missing Thing or a missing time on the entity (lines 109-115). Both would throw a `NullPointerException`, and the model takes both as present.
- The conversion of `TimeInstant` to `OffsetDateTime` (line 115). Times are integer epoch milliseconds.
- The debug logging and the delete count it prints (lines 134, 147).
- `AbstractTableThingsLocations.getInstance` (line 129). It is another class's cache and is not part of this model.
- `entityExists` (line 138) is external code. It is modelled as membership in the set of existing Location ids.
- Transactions, rollback and concurrent inserts for the same Thing. These belong to the surrounding persistence manager. The model is sequential and shows the state before any rollback.
- Concurrent calls of `getInstance` (lines 38-48). It writes the two static fields without synchronization. Racing first calls with different id types can leave `INSTANCE` and `INSTANCE_ID_TYPE` set by different callers, which breaks `InstanceCache.Valid()`, and can hand a caller a table of the other id type. `InstanceCache` models one caller at a time.
- Stored times finer than a millisecond. The model takes every stored `TIME` to be a whole number of milliseconds. A stored row later than `newTime` by less than 1 ms would block a relink in the database, but the model counts it as equal, so the relink happens.
- Duplicate Locations in one entity's list. The link table is modelled as a set, so a repeated Location yields one row. The real table's key constraints are not part of this model.
- `IdDeserializer` (FROST-Server.Core). It is a JSON wrapper that selects `IdLong` or `IdString`. The model takes the resulting `Id` as input.
