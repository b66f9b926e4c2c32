# Guard location registry

A model of the in-memory registry behind the Fox Eye tracker server. Guards
post location reports and SOS reports; an admin polls for every guard's
latest record. The server keeps one table, `guardLocations`, from guard id
to a shallow JSON record, and three handlers work on it:

- a **location report** replaces the guard's record with the submitted body,
  over which it writes the server's `timestamp` and `status: "online"`;
- an **SOS report** merges: the existing record (or nothing), then the body,
  then `sos: true` and the server's `timestamp`; it never writes `status`
  itself;
- a **snapshot** first sweeps every key and writes `status: "offline"` into
  each record whose time stamp is strictly earlier than five minutes
  (300000 ms) before now, then returns all records.

Files:

- `guard_records.dfy` (module `GuardRecords`): the `Value` datatype, records
  as `map<string, Value>`, and the record each operation builds.
- `registry_table.dfy` (module `RegistryTable`): the table after each
  handler, as a function of the table before it.
- `registry.dfy` (module `GuardRegistry`): class `Registry`, whose field
  `locations` the handler methods update in place; each method is proved to
  leave the table its function describes. The sweep is a loop over the keys.
- `properties.dfy` (module `RegistryProperties`): lemmas on what the
  handlers promise.

Time is an integer number of milliseconds passed in as `now`. The
server stores `new Date().toISOString()` and reads it back with
`new Date(...).getTime()`. That round trip is the identity on milliseconds,
so a stored stamp is modelled as `Time(ms)`. Both writers always store such
a stamp, and `Registry.Valid` holds that every stored record carries one, so
no stored record can have any other kind of stamp. `IsStale` answers "not
stale" for a record without a `Time` stamp. In the source only a missing or
unparseable stamp reads as `NaN` and is never stale. A `null`, a number, a
boolean or a date-like string would convert to a time there (server.js:60).
`IsStale` does not claim to match the source on such stamps, which no
handler stores.

A record exactly 300000 ms old keeps its status: the test at server.js:62
is strict (`SweepBoundaryIsStrict`).

The snapshot writes `"offline"` back into the stored record (server.js:63),
so `Sweep` changes the table.

## Model

| member | source | states |
|---|---|---|
| GuardRecords.LocationRecord | server.js:29-33 | the stored record has exactly the body's fields plus `timestamp` and `status`; `timestamp` is the server time, `status` is "online", every other body field is kept as sent |
| GuardRecords.SosRecord | server.js:43-48 | the record's fields are those of the prior record, the body and `sos`/`timestamp`; `sos` is true, `timestamp` is the server time; body fields win over prior ones, prior fields the body lacks survive |
| GuardRecords.SweptRecord | server.js:59-64 | a stale record gains or gets `status` "offline" and nothing else changes; a record that is not stale is returned unchanged |
| RegistryTable.Existing | server.js:44 | the prior record for the id, or a record with no fields when the id is new |
| RegistryTable.WithLocation | server.js:29-33 | the key set gains only `id`; `id` maps to the location record; every other key keeps its record |
| RegistryTable.WithSos | server.js:43-48 | the key set gains only `id`; `id` maps to the merged SOS record built on the existing one; every other key keeps its record |
| RegistryTable.Swept | server.js:58-65 | the key set is unchanged and each record is swept on its own |
| RegistryTable.SweepStep | server.js:59-64 | visiting one unvisited key writes "offline" into its record when it is stale and leaves the part-swept table as it is otherwise; either way that key is then swept |
| RegistryTable.PartlySweptEnds | server.js:58-65 | before any key is visited the part-swept table is the old table, and once all are visited it is the swept table |
| RegistryTable.SweptKeepsStamps | server.js:63 | the sweep keeps every stored record stamped by the server |
| GuardRegistry.Registry.constructor | server.js:14 | the registry starts with an empty table |
| GuardRegistry.Registry.ReportLocation | server.js:26-37 | the new table is `WithLocation` of the old one; every record still carries a server stamp |
| GuardRegistry.Registry.ReportSos | server.js:40-52 | the new table is `WithSos` of the old one; every record still carries a server stamp |
| GuardRegistry.Registry.Sweep | server.js:56-65 | after a loop over every key that writes "offline" into stale records in place, the table is `Swept` of the old one, and every record still carries a server stamp |
| GuardRegistry.Registry.Values | server.js:67 | returns one record per key: as many records as keys, each the stored record of a distinct key, and every key covered; no order is promised |
| GuardRegistry.Registry.Snapshot | server.js:55-68 | the table is swept at `now`, then every record of the swept table is returned once; each returned record is its stored record with status "offline" when its stamp is strictly before `now - 300000`, and the stored record unchanged otherwise |
| RegistryProperties.LocationReplacesRecord | server.js:29-33 | after a location report the record is the body plus server stamp and "online"; fields of the prior record the body lacks are gone |
| RegistryProperties.LocationIgnoresClientFields | server.js:30-32 | a client's own `timestamp` or `status` in a location report makes no difference to the stored record |
| RegistryProperties.LastLocationWins | server.js:29-33 | two location reports for one guard leave the same table as the later report alone |
| RegistryProperties.SosMergesRecord | server.js:43-48 | after an SOS the record is the prior one overlaid by the body, then by `sos` true and the server stamp; prior fields absent from the body survive with their values |
| RegistryProperties.SosIgnoresClientFields | server.js:45-47 | a client's own `sos` or `timestamp` in an SOS makes no difference to the stored record |
| RegistryProperties.SosKeepsStatus | server.js:43-48 | an SOS whose body has no `status` keeps the stored status, "offline" included, and a guard first seen through an SOS has no status |
| RegistryProperties.SosNeverSetsOnline | server.js:43-48 | unless the client sends `status` "online", an SOS never makes a status "online" that was not already "online" |
| RegistryProperties.LocationAfterSosDropsFlag | server.js:29-33 | a location report after an SOS drops the `sos` flag unless its own body carries one |
| RegistryProperties.ReportsAreIndependent | server.js:29-48 | reports for two different guards, of either kind, leave the same table in either order |
| RegistryProperties.ReportsKeepStamps | server.js:29-47 | both reports keep every stored record stamped by the server |
| RegistryProperties.SweepMarksExactlyStale | server.js:56-64 | a stamped record gets "offline" exactly when its stamp is strictly before `now - 300000`, and is otherwise unchanged |
| RegistryProperties.SweepBoundaryIsStrict | server.js:62 | a record exactly 300000 ms old is left as it was |
| RegistryProperties.SweepOnlyWritesOffline | server.js:58-65 | the sweep adds and removes no key, changes no field but `status`, and only ever writes "offline" |
| RegistryProperties.SweptRecordLater | server.js:59-64 | sweeping a record twice, the second time no earlier, equals the later sweep alone |
| RegistryProperties.SweepLaterSubsumes | server.js:58-65 | a sweep at `t1` followed by one at `t2 >= t1` leaves the same table as the sweep at `t2` alone |
| RegistryProperties.SweepIdempotent | server.js:58-65 | two sweeps at the same time leave the same table as one |
| RegistryProperties.LocationThenSnapshotStatus | server.js:29-64 | after a location report at `at`, a snapshot at `now` shows "offline" exactly when `at < now - 300000`, "online" otherwise |
| RegistryProperties.SosThenSnapshot | server.js:43-48 | after an SOS, a stale snapshot shows "offline" with the flag still set; a fresh one shows the stored SOS record unchanged |
| RegistryProperties.ReportSnapshotSosScenario | server.js:26-68 | report, poll within five minutes, then SOS: the poll shows the guard "online" with its fields, the SOS sets the flag and the battery level survives |
| RegistryProperties.SixAndFourMinutesScenario | server.js:56-64 | a record six minutes old shows "offline" after a snapshot, one four minutes old shows "online" |

## Left out

- Express setup, CORS, JSON body parsing and static files (server.js:2-11): framework plumbing.
- The `/health` handler (server.js:17-23): it returns a constant and the clock.
- HTML routes, `sendFile`, the port and `app.listen` (server.js:71-90): I/O.
- The `console.log` lines (server.js:35, 50) and the JSON responses `{success: true}` and `{success: true, alertSent: true}` (server.js:36, 51): output only.
- The clock: `new Date()` and `Date.now()` become the parameter `now`, and the ISO-string round trip is taken as the identity on milliseconds.
- How the key is obtained: the handlers take `id` as a parameter standing for the body's `guardId`. JavaScript's coercion of a missing id to the key `"undefined"`, and special object keys such as `__proto__`, are not modelled.
- JSON values are opaque (`Value`); numbers are `real` and no floating-point behaviour is modelled. Nested objects are not looked into, so aliasing between a body and a stored record is not modelled. Records are values, and the in-place write of `status` is a table update.
- The key order of `Object.keys` and `Object.values` (insertion order) is not modelled. `Values` visits the keys in an unspecified order and promises only one record per key.
- Concurrent requests: each handler body runs to completion without interruption, so calls are modelled one after another.
- GuardRecords.IsStale: on a record whose `timestamp` is not a server `Time`, it answers "not stale", while the source would convert a null, number, boolean or date-like string to a time; no handler stores such a stamp (`Registry.Valid`).
