/**
 The record a guard's reports leave in the registry, and the three ways a
 record is built or rewritten: the location report's full replacement, the
 SOS report's shallow merge, and the staleness sweep's "offline" write-back.
 */
module GuardRecords {

  /** An opaque JSON value carried through from a request body. A server
      timestamp is `Time(ms)`: it stands for the ISO-8601 string the server
      stores, which converts back to the same number of milliseconds. */
  datatype Value =
    | Str(s: string)
    | Num(n: real)
    | Bool(b: bool)
    | Time(ms: int)
    | Null
    | Other

  /** A guard record: field name to value, as a shallow JSON object. */
  type Record = map<string, Value>

  const TimestampField: string := "timestamp"
  const StatusField: string := "status"
  const SosField: string := "sos"

  const Online: Value := Str("online")
  const Offline: Value := Str("offline")

  /** A record whose last write is more than this many milliseconds older
      than the time of a snapshot is marked offline by that snapshot. */
  const StaleAfterMs: int := 300000

  /** The record starts with what a report writes: a server time stamp. */
  predicate HasServerTimestamp(rec: Record)
  {
    TimestampField in rec && rec[TimestampField].Time?
  }

  /** The record a location report stores: the body as submitted, with the
      server's time stamp and status "online" written over it. */
  function LocationRecord(body: Record, now: int): (r: Record)
    ensures r.Keys == body.Keys + {TimestampField, StatusField}
    ensures r[TimestampField] == Time(now) && r[StatusField] == Online
    ensures forall f :: f in body && f != TimestampField && f != StatusField ==> r[f] == body[f]
    ensures HasServerTimestamp(r)
  {
    body[TimestampField := Time(now)][StatusField := Online]
  }

  /** The record an SOS report stores: the prior record, overlaid by the body,
      overlaid by `sos: true` and the server's time stamp. */
  function SosRecord(prior: Record, body: Record, now: int): (r: Record)
    ensures r.Keys == prior.Keys + body.Keys + {SosField, TimestampField}
    ensures r[SosField] == Bool(true) && r[TimestampField] == Time(now)
    ensures forall f :: f in body && f != SosField && f != TimestampField ==> r[f] == body[f]
    ensures forall f :: f in prior && f !in body && f != SosField && f != TimestampField ==> r[f] == prior[f]
    ensures HasServerTimestamp(r)
  {
    (prior + body)[SosField := Bool(true)][TimestampField := Time(now)]
  }

  /** The staleness test of a snapshot with the given cutoff: the record's
      server time stamp is strictly earlier than the cutoff. Every stored
      record carries such a stamp (`Registry.Valid`). On a record without
      one this test answers "not stale", which matches the source only for
      a missing or unparseable stamp (those read as NaN); a null, a number,
      a boolean or a date-like string would convert to a time there. */
  predicate IsStale(rec: Record, cutoff: int)
  {
    HasServerTimestamp(rec) && rec[TimestampField].ms < cutoff
  }

  /** What a snapshot at time `now` leaves of one record. */
  function SweptRecord(rec: Record, now: int): (r: Record)
    ensures IsStale(rec, now - StaleAfterMs) ==> r.Keys == rec.Keys + {StatusField} && r[StatusField] == Offline
    ensures !IsStale(rec, now - StaleAfterMs) ==> r == rec
    ensures forall f :: f in rec && f != StatusField ==> f in r && r[f] == rec[f]
    ensures forall f :: f in r ==> f in rec || f == StatusField
  {
    if IsStale(rec, now - StaleAfterMs) then rec[StatusField := Offline] else rec
  }
}
