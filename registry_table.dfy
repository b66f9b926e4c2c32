/**
 The in-memory table from guard id to record, and the table each handler
 leaves behind, as functions of the table before it.
 */
module RegistryTable {
  import opened GuardRecords

  /** Guard id to that guard's latest record. */
  type Table = map<string, Record>

  /** The record stored for `id`, or the empty object when there is none
      (spreading `undefined` contributes no fields). */
  function Existing(t: Table, id: string): (r: Record)
    ensures id in t ==> r == t[id]
    ensures id !in t ==> r.Keys == {}
  {
    if id in t then t[id] else map[]
  }

  /** The table after a location report for `id`. */
  function WithLocation(t: Table, id: string, body: Record, now: int): (r: Table)
    ensures r.Keys == t.Keys + {id}
    ensures r[id] == LocationRecord(body, now)
    ensures forall k :: k in t && k != id ==> r[k] == t[k]
  {
    t[id := LocationRecord(body, now)]
  }

  /** The table after an SOS report for `id`. */
  function WithSos(t: Table, id: string, body: Record, now: int): (r: Table)
    ensures r.Keys == t.Keys + {id}
    ensures r[id] == SosRecord(Existing(t, id), body, now)
    ensures forall k :: k in t && k != id ==> r[k] == t[k]
  {
    t[id := SosRecord(Existing(t, id), body, now)]
  }

  /** The table after the staleness sweep of a snapshot at time `now`. */
  function Swept(t: Table, now: int): (r: Table)
    ensures r.Keys == t.Keys
    ensures forall k :: k in t ==> r[k] == SweptRecord(t[k], now)
  {
    map k | k in t :: SweptRecord(t[k], now)
  }

  /** The table part-way through the sweep: the keys in `todo` are not
      visited yet, every other key has been swept. */
  ghost function PartlySwept(t: Table, todo: set<string>, now: int): Table
  {
    map k | k in t :: if k in todo then t[k] else SweptRecord(t[k], now)
  }

  /** One step of the sweep: visiting an unvisited key writes "offline" into
      its record when it is stale and otherwise leaves the table as it is. */
  lemma SweepStep(t: Table, todo: set<string>, id: string, now: int)
    requires id in todo && id in t
    ensures IsStale(t[id], now - StaleAfterMs) ==>
      PartlySwept(t, todo - {id}, now) == PartlySwept(t, todo, now)[id := t[id][StatusField := Offline]]
    ensures !IsStale(t[id], now - StaleAfterMs) ==>
      PartlySwept(t, todo - {id}, now) == PartlySwept(t, todo, now)
  {
    var before, after := PartlySwept(t, todo, now), PartlySwept(t, todo - {id}, now);
    assert forall k :: k in t && k != id ==> after[k] == before[k];
  }

  /** Before the sweep nothing is visited; once every key is visited the
      table is the swept table. */
  lemma PartlySweptEnds(t: Table, now: int)
    ensures PartlySwept(t, t.Keys, now) == t
    ensures PartlySwept(t, {}, now) == Swept(t, now)
  {
  }

  /** Every stored record carries a server time stamp. */
  ghost predicate AllStamped(t: Table)
  {
    forall k :: k in t ==> HasServerTimestamp(t[k])
  }

  /** The sweep keeps every stored record stamped by the server. */
  lemma SweptKeepsStamps(t: Table, now: int)
    requires AllStamped(t)
    ensures AllStamped(Swept(t, now))
  {
  }
}
