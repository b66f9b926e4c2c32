/**
 The guard location registry: one table, owned by one object, changed in
 place by the two report handlers and by the sweep a snapshot runs first.
 */
module GuardRegistry {
  import opened GuardRecords
  import opened RegistryTable

  class Registry {
    /** Guard id to that guard's latest record. */
    var locations: Table

    /** Every record was written by a report, so it carries a time stamp. */
    ghost predicate Valid()
      reads this
    {
      AllStamped(locations)
    }

    /** The registry starts empty. */
    constructor ()
      ensures Valid() && locations == map[]
    {
      locations := map[];
    }

    /** Handler of a location report: replaces the record of `id`. */
    method ReportLocation(id: string, body: Record, now: int)
      requires Valid()
      modifies this
      ensures Valid()
      ensures locations == WithLocation(old(locations), id, body, now)
    {
      locations := locations[id := LocationRecord(body, now)];
    }

    /** Handler of an SOS report: merges the body into the record of `id`. */
    method ReportSos(id: string, body: Record, now: int)
      requires Valid()
      modifies this
      ensures Valid()
      ensures locations == WithSos(old(locations), id, body, now)
    {
      locations := locations[id := SosRecord(Existing(locations, id), body, now)];
    }

    /** The sweep of a snapshot: visits every key once and writes status
        "offline" into each record whose last write is before the cutoff. */
    method Sweep(now: int)
      requires Valid()
      modifies this
      ensures Valid()
      ensures locations == Swept(old(locations), now)
    {
      ghost var t0 := locations;
      var cutoff := now - StaleAfterMs;
      var todo := locations.Keys;
      PartlySweptEnds(t0, now);
      while todo != {}
        invariant todo <= t0.Keys
        invariant locations == PartlySwept(t0, todo, now)
        decreases |todo|
      {
        var id :| id in todo;
        SweepStep(t0, todo, id, now);
        var rec := locations[id];
        if IsStale(rec, cutoff) {
          locations := locations[id := rec[StatusField := Offline]];
        }
        todo := todo - {id};
      }
      SweptKeepsStamps(t0, now);
    }

    /** All stored records, one per key, in an unspecified order; `order`
        gives the key each record was read from. */
    method Values() returns (records: seq<Record>, ghost order: seq<string>)
      ensures |records| == |order| == |locations.Keys|
      ensures forall i :: 0 <= i < |order| ==> order[i] in locations && records[i] == locations[order[i]]
      ensures forall i, j :: 0 <= i < j < |order| ==> order[i] != order[j]
      ensures forall k :: k in locations ==> k in order
      ensures forall i :: 0 <= i < |records| ==> records[i] in locations.Values
      ensures forall k :: k in locations ==> locations[k] in records
    {
      records, order := [], [];
      var todo := locations.Keys;
      while todo != {}
        invariant todo <= locations.Keys
        invariant |records| == |order|
        invariant |order| + |todo| == |locations.Keys|
        invariant forall i :: 0 <= i < |order| ==> order[i] in locations && order[i] !in todo && records[i] == locations[order[i]]
        invariant forall i, j :: 0 <= i < j < |order| ==> order[i] != order[j]
        invariant forall k :: k in locations && k !in todo ==> k in order
        decreases |todo|
      {
        var id :| id in todo;
        records, order := records + [locations[id]], order + [id];
        todo := todo - {id};
      }
    }

    /** Handler of the admin's poll: the sweep, then all records. */
    method Snapshot(now: int) returns (records: seq<Record>, ghost order: seq<string>)
      requires Valid()
      modifies this
      ensures Valid()
      ensures locations == Swept(old(locations), now)
      ensures |records| == |order| == |locations.Keys|
      ensures forall i :: 0 <= i < |order| ==> order[i] in locations && records[i] == locations[order[i]]
      ensures forall i, j :: 0 <= i < j < |order| ==> order[i] != order[j]
      ensures forall k :: k in locations ==> k in order
      ensures forall i :: 0 <= i < |order| ==>
        && order[i] in old(locations)
        && (old(locations)[order[i]][TimestampField].ms < now - StaleAfterMs ==>
              records[i] == old(locations)[order[i]][StatusField := Offline])
        && (old(locations)[order[i]][TimestampField].ms >= now - StaleAfterMs ==>
              records[i] == old(locations)[order[i]])
    {
      Sweep(now);
      records, order := Values();
    }
  }
}
