/**
 What the three handlers promise, stated over the table functions that the
 registry's methods are proved to implement.
 */
module RegistryProperties {
  import opened GuardRecords
  import opened RegistryTable

  // ---------------------------------------------------------------------
  // Location report: full replacement
  // ---------------------------------------------------------------------

  /** The stored record is exactly the body plus the server's two fields:
      a field of the prior record that the body lacks is gone. */
  lemma LocationReplacesRecord(t: Table, id: string, body: Record, now: int)
    ensures var r := WithLocation(t, id, body, now)[id];
      && r[TimestampField] == Time(now)
      && r[StatusField] == Online
      && (forall f :: f in body && f != TimestampField && f != StatusField ==> r[f] == body[f])
      && (forall f :: f in Existing(t, id) && f !in body && f != TimestampField && f != StatusField ==> f !in r)
  {
  }

  /** Whatever time stamp or status the client sent has no effect. */
  lemma LocationIgnoresClientFields(body: Record, now: int)
    ensures LocationRecord(body, now) == LocationRecord(body - {TimestampField, StatusField}, now)
  {
  }

  /** Of two location reports for the same guard the later one wins
      entirely: nothing of the earlier one survives. */
  lemma LastLocationWins(t: Table, id: string, b1: Record, t1: int, b2: Record, t2: int)
    ensures WithLocation(WithLocation(t, id, b1, t1), id, b2, t2) == WithLocation(t, id, b2, t2)
  {
  }

  // ---------------------------------------------------------------------
  // SOS report: shallow merge
  // ---------------------------------------------------------------------

  /** The stored record is the prior one overlaid by the body, then by
      `sos: true` and the server's time stamp: fields of the prior record
      that the body lacks survive with their values. */
  lemma SosMergesRecord(t: Table, id: string, body: Record, now: int)
    ensures var r := WithSos(t, id, body, now)[id];
      && r[SosField] == Bool(true)
      && r[TimestampField] == Time(now)
      && (forall f :: f in body && f != SosField && f != TimestampField ==> r[f] == body[f])
      && (forall f :: f in Existing(t, id) && f !in body && f != SosField && f != TimestampField ==>
            f in r && r[f] == t[id][f])
  {
  }

  /** Whatever `sos` flag or time stamp the client sent has no effect. */
  lemma SosIgnoresClientFields(prior: Record, body: Record, now: int)
    ensures SosRecord(prior, body, now) == SosRecord(prior, body - {SosField, TimestampField}, now)
  {
  }

  /** An SOS whose body has no status leaves the stored status as it was,
      "offline" included; a guard first seen through an SOS has no status. */
  lemma SosKeepsStatus(t: Table, id: string, body: Record, now: int)
    requires StatusField !in body
    ensures var r := WithSos(t, id, body, now)[id];
      && (StatusField in r <==> id in t && StatusField in t[id])
      && (StatusField in r ==> r[StatusField] == t[id][StatusField])
  {
  }

  /** An SOS writes status "online" only when the client sent it: otherwise
      an "online" status after the SOS was already there before it. */
  lemma SosNeverSetsOnline(t: Table, id: string, body: Record, now: int)
    requires !(StatusField in body && body[StatusField] == Online)
    ensures var r := WithSos(t, id, body, now)[id];
      StatusField in r && r[StatusField] == Online ==>
        id in t && StatusField in t[id] && t[id][StatusField] == Online
  {
  }

  /** A location report after an SOS drops the `sos` flag unless its own
      body carries one: replacement does not carry fields forward. */
  lemma LocationAfterSosDropsFlag(t: Table, id: string, b1: Record, t1: int, b2: Record, t2: int)
    requires SosField !in b2
    ensures SosField in WithSos(t, id, b1, t1)[id]
    ensures SosField !in WithLocation(WithSos(t, id, b1, t1), id, b2, t2)[id]
  {
  }

  // ---------------------------------------------------------------------
  // Both reports
  // ---------------------------------------------------------------------

  /** Writes to two different keys of a table commute. */
  lemma UpdatesCommute(t: Table, a: string, x: Record, b: string, y: Record)
    requires a != b
    ensures t[a := x][b := y] == t[b := y][a := x]
  {
    var l, r := t[a := x][b := y], t[b := y][a := x];
    assert l.Keys == r.Keys;
    assert forall k :: k in l ==> l[k] == r[k];
  }

  /** Reports for two different guards do not interact: in either order
      they leave the same table, whichever kind each report is. */
  lemma ReportsAreIndependent(t: Table, a: string, b: string, ba: Record, bb: Record, ta: int, tb: int)
    requires a != b
    ensures WithLocation(WithLocation(t, a, ba, ta), b, bb, tb) == WithLocation(WithLocation(t, b, bb, tb), a, ba, ta)
    ensures WithSos(WithLocation(t, a, ba, ta), b, bb, tb) == WithLocation(WithSos(t, b, bb, tb), a, ba, ta)
    ensures WithSos(WithSos(t, a, ba, ta), b, bb, tb) == WithSos(WithSos(t, b, bb, tb), a, ba, ta)
  {
    UpdatesCommute(t, a, LocationRecord(ba, ta), b, LocationRecord(bb, tb));
    UpdatesCommute(t, a, LocationRecord(ba, ta), b, SosRecord(Existing(t, b), bb, tb));
    UpdatesCommute(t, a, SosRecord(Existing(t, a), ba, ta), b, SosRecord(Existing(t, b), bb, tb));
  }

  /** Both reports keep every record stamped by the server. */
  lemma ReportsKeepStamps(t: Table, id: string, body: Record, now: int)
    requires AllStamped(t)
    ensures AllStamped(WithLocation(t, id, body, now))
    ensures AllStamped(WithSos(t, id, body, now))
  {
  }

  // ---------------------------------------------------------------------
  // Staleness sweep
  // ---------------------------------------------------------------------

  /** For a record with a server time stamp, the sweep at `now` writes
      "offline" exactly when the stamp is strictly before `now - 300000`,
      and leaves the record as it was otherwise. */
  lemma SweepMarksExactlyStale(t: Table, now: int, k: string)
    requires k in t && HasServerTimestamp(t[k])
    ensures t[k][TimestampField].ms < now - StaleAfterMs ==>
      Swept(t, now)[k] == t[k][StatusField := Offline]
    ensures t[k][TimestampField].ms >= now - StaleAfterMs ==>
      Swept(t, now)[k] == t[k]
  {
  }

  /** A record exactly five minutes old keeps whatever status it had. */
  lemma SweepBoundaryIsStrict(rec: Record, now: int)
    requires TimestampField in rec && rec[TimestampField] == Time(now - StaleAfterMs)
    ensures SweptRecord(rec, now) == rec
  {
  }

  /** The sweep adds and removes no key, changes no field but the status,
      and never writes "online". */
  lemma SweepOnlyWritesOffline(t: Table, now: int)
    ensures Swept(t, now).Keys == t.Keys
    ensures forall k, f :: k in t && f in t[k] && f != StatusField ==>
      f in Swept(t, now)[k] && Swept(t, now)[k][f] == t[k][f]
    ensures forall k, f :: k in t && f in Swept(t, now)[k] && f != StatusField ==> f in t[k]
    ensures forall k :: k in t && StatusField in Swept(t, now)[k] ==>
      Swept(t, now)[k][StatusField] == Offline ||
      (StatusField in t[k] && Swept(t, now)[k][StatusField] == t[k][StatusField])
  {
  }

  /** Sweeping one record at `t1` and then at a time no earlier gives what
      the later sweep alone gives. */
  lemma SweptRecordLater(rec: Record, t1: int, t2: int)
    requires t1 <= t2
    ensures SweptRecord(SweptRecord(rec, t1), t2) == SweptRecord(rec, t2)
  {
  }

  /** A later snapshot subsumes an earlier one: status only moves towards
      "offline" as time passes, and the sweep never undoes its own writes. */
  lemma SweepLaterSubsumes(t: Table, t1: int, t2: int)
    requires t1 <= t2
    ensures Swept(Swept(t, t1), t2) == Swept(t, t2)
  {
    var a, b := Swept(Swept(t, t1), t2), Swept(t, t2);
    forall k | k in t
      ensures a[k] == b[k]
    {
      SweptRecordLater(t[k], t1, t2);
    }
    assert a.Keys == b.Keys;
  }

  /** Two sweeps at the same time are one sweep. */
  lemma SweepIdempotent(t: Table, now: int)
    ensures Swept(Swept(t, now), now) == Swept(t, now)
  {
    SweepLaterSubsumes(t, now, now);
  }

  // ---------------------------------------------------------------------
  // Status over a guard's life
  // ---------------------------------------------------------------------

  /** After a location report at `at`, a snapshot at `now` shows the guard
      "offline" exactly when the report is older than five minutes, and
      "online" otherwise. */
  lemma LocationThenSnapshotStatus(t: Table, id: string, body: Record, at: int, now: int)
    ensures Swept(WithLocation(t, id, body, at), now)[id][StatusField] ==
      if at < now - StaleAfterMs then Offline else Online
  {
  }

  /** After an SOS at `at`, a snapshot at `now` shows the guard "offline"
      when the SOS is older than five minutes, and otherwise shows the
      record the SOS stored, unchanged. */
  lemma SosThenSnapshot(t: Table, id: string, body: Record, at: int, now: int)
    ensures var r := WithSos(t, id, body, at)[id];
      var s := Swept(WithSos(t, id, body, at), now)[id];
      && (at < now - StaleAfterMs ==> s[StatusField] == Offline && s[SosField] == Bool(true))
      && (at >= now - StaleAfterMs ==> s == r)
  {
  }

  // ---------------------------------------------------------------------
  // Worked scenarios
  // ---------------------------------------------------------------------

  /** A location report for a new guard, a snapshot within five minutes,
      then an SOS that omits the battery: the snapshot shows the guard
      "online" with every submitted field, and the SOS raises the flag while
      the battery level survives. */
  lemma ReportSnapshotSosScenario(at: int, now: int, later: int)
    requires at <= now <= at + StaleAfterMs
    ensures var loc := map["guardId" := Str("g1"), "latitude" := Num(10.0), "longitude" := Num(20.0), "battery" := Num(80.0)];
      var sos := map["guardId" := Str("g1"), "latitude" := Num(10.0), "longitude" := Num(20.0)];
      var afterPoll := Swept(WithLocation(map[], "g1", loc, at), now);
      var afterSos := WithSos(afterPoll, "g1", sos, later);
      && afterPoll.Keys == {"g1"}
      && afterPoll["g1"] == loc[TimestampField := Time(at)][StatusField := Online]
      && afterSos["g1"][SosField] == Bool(true)
      && afterSos["g1"]["battery"] == Num(80.0)
      && afterSos["g1"][StatusField] == Online
  {
  }

  /** A record last written six minutes before a snapshot is shown
      "offline"; one written four minutes before keeps "online". */
  lemma SixAndFourMinutesScenario(body: Record, now: int)
    ensures var t := WithLocation(WithLocation(map[], "a", body, now - 360000), "b", body, now - 240000);
      && Swept(t, now)["a"][StatusField] == Offline
      && Swept(t, now)["b"][StatusField] == Online
  {
  }
}
