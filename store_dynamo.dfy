/** The two DynamoDB tables behind the library API (app/store_dynamo.py),
    modelled as in-memory maps: `LibraryTables` (tableId -> table record,
    seats nested inside) and `LibraryHolds` (holdId -> hold record).
    The wall clock (`now()`) and the fresh hold id (`uuid4()`) are
    parameters. */
module StoreDynamo {
  import opened Wrappers

  datatype Status = FREE | HELD | OCCUPIED

  datatype Seat = Seat(seatId: string, status: Status, occupantUserId: Option<string>)

  /** A study-table record. `kind` is the record's `type` attribute. */
  datatype Table = Table(
    tableId: string,
    floorId: string,
    kind: string,
    capacity: int,
    tags: seq<string>,
    seats: seq<Seat>,
    isOpenToJoin: bool,
    topicTags: seq<string>,
    courseCodes: seq<string>)

  /** A hold record; `expiresAt` may be absent from an item written by
      something other than `create_hold`. */
  datatype HoldRecord = HoldRecord(holdId: string, tableId: string, seatIndex: int, expiresAt: Option<int>)

  /** The contents of both DynamoDB tables at one instant. */
  datatype Stores = Stores(tables: map<string, Table>, holds: map<string, HoldRecord>)

  /** Every item sits under its own primary key, as `put_item` guarantees. */
  ghost predicate Wf(s: Stores) {
    && (forall k :: k in s.tables ==> s.tables[k].tableId == k)
    && (forall k :: k in s.holds ==> s.holds[k].holdId == k)
  }

  /** `put_item` on the tables table: the whole record is replaced at the
      key given by its own `tableId`. */
  function PutTable(tables: map<string, Table>, item: Table): (r: map<string, Table>)
    ensures r.Keys == tables.Keys + {item.tableId}
    ensures r[item.tableId] == item
    ensures forall k :: k in tables && k != item.tableId ==> r[k] == tables[k]
  {
    tables[item.tableId := item]
  }

  /** The record `create_hold` writes. */
  function NewHold(holdId: string, tableId: string, seatIndex: int, now: int, ttlSec: int): HoldRecord {
    HoldRecord(holdId, tableId, seatIndex, Some(now + ttlSec))
  }

  /** `h.get("expiresAt", 0) < now()`: a hold without `expiresAt` counts
      as expiring at time 0. */
  predicate IsExpired(h: HoldRecord, now: int) {
    h.expiresAt.GetOr(0) < now
  }

  function ExpiredKeys(holds: map<string, HoldRecord>, now: int): (ks: set<string>)
    ensures forall k :: k in ks <==> k in holds && IsExpired(holds[k], now)
  {
    set k | k in holds && IsExpired(holds[k], now)
  }

  /** The seats (tableId, seatIndex) that the holds under `keys` point at. */
  function Targets(holds: map<string, HoldRecord>, keys: set<string>): set<(string, int)> {
    set k | k in keys && k in holds :: (holds[k].tableId, holds[k].seatIndex)
  }

  /** Table `t` with the status of seat `i` set to `status` in place
      (`tab["seats"][i]["status"] = status`). */
  function SetStatus(t: Table, i: int, status: Status): (r: Table)
    requires 0 <= i < |t.seats|
    ensures |r.seats| == |t.seats|
    ensures r.seats[i].status == status
  {
    t.(seats := t.seats[i := t.seats[i].(status := status)])
  }

  /** Table `t`, stored under `tableId`, with every HELD seat that a pair in
      `targets` points at turned FREE. */
  function FreeTargetedSeats(tableId: string, t: Table, targets: set<(string, int)>): (r: Table)
    ensures |r.seats| == |t.seats|
  {
    t.(seats := seq(|t.seats|, i requires 0 <= i < |t.seats| =>
      if t.seats[i].status == HELD && (tableId, i) in targets then t.seats[i].(status := FREE) else t.seats[i]))
  }

  function FreeTargets(tables: map<string, Table>, targets: set<(string, int)>): (r: map<string, Table>)
    ensures r.Keys == tables.Keys
  {
    map k | k in tables :: FreeTargetedSeats(k, tables[k], targets)
  }

  /** What one pass of `expire_holds` leaves behind, in closed form: every
      expired hold is gone, and a seat is FREE exactly when it was FREE
      before or was HELD and some expired hold points at it. */
  function Sweep(s: Stores, now: int): (r: Stores)
    ensures r.tables.Keys == s.tables.Keys
    ensures forall k :: k in r.holds <==> k in s.holds && !IsExpired(s.holds[k], now)
    ensures forall k :: k in r.holds ==> r.holds[k] == s.holds[k]
  {
    var expired := ExpiredKeys(s.holds, now);
    Stores(FreeTargets(s.tables, Targets(s.holds, expired)), s.holds - expired)
  }

  /** Table `t'` is `t` with, at most, some HELD seats turned FREE. */
  ghost predicate OnlyHeldFreed(t: Table, t': Table) {
    && t'.(seats := t.seats) == t
    && |t'.seats| == |t.seats|
    && forall i :: 0 <= i < |t.seats| ==>
         t'.seats[i] == t.seats[i] || (t.seats[i].status == HELD && t'.seats[i] == t.seats[i].(status := FREE))
  }

  /** The sweep's exact effect on one seat: it turns FREE iff it was HELD and
      an expired hold points at it (the table may be missing and the index
      out of range: such holds are deleted without touching any seat). */
  lemma SweepSeat(s: Stores, now: int, k: string, i: int)
    requires k in s.tables && 0 <= i < |s.tables[k].seats|
    ensures var seat := s.tables[k].seats[i];
      Sweep(s, now).tables[k].seats[i] ==
        if seat.status == HELD && (exists h :: h in s.holds && IsExpired(s.holds[h], now)
                                      && s.holds[h].tableId == k && s.holds[h].seatIndex == i)
        then seat.(status := FREE) else seat
  {
    var expired := ExpiredKeys(s.holds, now);
    var targets := Targets(s.holds, expired);
    if exists h :: h in s.holds && IsExpired(s.holds[h], now) && s.holds[h].tableId == k && s.holds[h].seatIndex == i {
      var h :| h in s.holds && IsExpired(s.holds[h], now) && s.holds[h].tableId == k && s.holds[h].seatIndex == i;
      assert (k, i) in targets by {
        assert h in expired;
      }
    }
  }

  /** The sweep never touches anything but the status of HELD seats. */
  lemma SweepOnlyFreesHeld(s: Stores, now: int)
    ensures forall k :: k in s.tables ==> OnlyHeldFreed(s.tables[k], Sweep(s, now).tables[k])
  {
  }

  /** The sweep keeps every item under its own key. */
  lemma SweepWf(s: Stores, now: int)
    requires Wf(s)
    ensures Wf(Sweep(s, now))
  {
  }

  /** A live hold survives the sweep, and so does its seat when no other
      record points at that seat. */
  lemma SweepKeepsLiveHold(s: Stores, now: int, id: string)
    requires Wf(s) && id in s.holds && !IsExpired(s.holds[id], now)
    requires s.holds[id].tableId in s.tables
    requires 0 <= s.holds[id].seatIndex < |s.tables[s.holds[id].tableId].seats|
    requires forall h :: h in s.holds && h != id ==>
      !(s.holds[h].tableId == s.holds[id].tableId && s.holds[h].seatIndex == s.holds[id].seatIndex)
    ensures var k, i, r := s.holds[id].tableId, s.holds[id].seatIndex, Sweep(s, now);
      && Wf(r) && id in r.holds && r.holds[id] == s.holds[id]
      && k in r.tables && r.tables[k].seats[i] == s.tables[k].seats[i]
  {
    var k, i := s.holds[id].tableId, s.holds[id].seatIndex;
    SweepSeat(s, now, k, i);
    SweepWf(s, now);
  }

  /** Sweeping twice at the same instant is the same as sweeping once: after
      one pass no expired hold is left to point at anything. */
  lemma SweepIdempotent(s: Stores, now: int)
    ensures Sweep(Sweep(s, now), now) == Sweep(s, now)
  {
    var r := Sweep(s, now);
    assert ExpiredKeys(r.holds, now) == {};
    assert Targets(r.holds, {}) == {};
    FreeNothing(r.tables);
    assert r.holds - {} == r.holds;
  }

  /** With no targets nothing is freed. */
  lemma FreeNothing(tables: map<string, Table>)
    ensures FreeTargets(tables, {}) == tables
  {
    forall k | k in tables
      ensures FreeTargetedSeats(k, tables[k], {}) == tables[k]
    {
      assert FreeTargetedSeats(k, tables[k], {}).seats == tables[k].seats;
    }
  }

  /** One more processed hold, in terms of the closed form: it frees its seat
      when the seat is still HELD and in range, and changes nothing else. */
  lemma FreeTargetsStep(t0: map<string, Table>, done: set<(string, int)>, p: (string, int))
    ensures var cur := FreeTargets(t0, done);
      if p.0 in cur && 0 <= p.1 < |cur[p.0].seats| && cur[p.0].seats[p.1].status == HELD
      then FreeTargets(t0, done + {p}) == cur[p.0 := SetStatus(cur[p.0], p.1, FREE)]
      else FreeTargets(t0, done + {p}) == cur
  {
    var cur := FreeTargets(t0, done);
    var next := FreeTargets(t0, done + {p});
    forall k | k in t0
      ensures next[k] == if k == p.0 && 0 <= p.1 < |cur[k].seats| && cur[k].seats[p.1].status == HELD
                         then SetStatus(cur[k], p.1, FREE) else cur[k]
    {
      FreeTargetedSeatsStep(k, t0[k], done, p);
    }
  }

  /** `FreeTargetsStep` for the one table stored under `k`. */
  lemma FreeTargetedSeatsStep(k: string, t: Table, done: set<(string, int)>, p: (string, int))
    ensures var cur := FreeTargetedSeats(k, t, done);
      FreeTargetedSeats(k, t, done + {p}) ==
        if k == p.0 && 0 <= p.1 < |cur.seats| && cur.seats[p.1].status == HELD
        then SetStatus(cur, p.1, FREE) else cur
  {
    var cur := FreeTargetedSeats(k, t, done);
    var a := FreeTargetedSeats(k, t, done + {p}).seats;
    var b := if k == p.0 && 0 <= p.1 < |cur.seats| && cur.seats[p.1].status == HELD
             then SetStatus(cur, p.1, FREE).seats else cur.seats;
    assert |a| == |b|;
    forall i | 0 <= i < |a| ensures a[i] == b[i] {
    }
    assert a == b;
  }

  lemma SubtractTwice<K, V>(m: map<K, V>, a: set<K>, b: set<K>)
    ensures (m - a) - b == m - (a + b)
  {
  }

  lemma TargetsAdd(holds: map<string, HoldRecord>, keys: set<string>, k: string)
    requires k in holds
    ensures Targets(holds, keys + {k}) == Targets(holds, keys) + {(holds[k].tableId, holds[k].seatIndex)}
  {
  }

  /** Bookkeeping of the sweep loop: taking `k` out of the pending keys adds
      it to the processed expired keys exactly when it is expired. */
  lemma DoneStep(holds: map<string, HoldRecord>, now: int, pending: set<string>, k: string)
    requires k in pending && k in holds
    ensures ExpiredKeys(holds, now) - (pending - {k}) ==
      if IsExpired(holds[k], now) then (ExpiredKeys(holds, now) - pending) + {k}
      else ExpiredKeys(holds, now) - pending
  {
  }

  /** The holds that a sweep leaves: all but the expired ones. */
  lemma SweepHolds(s: Stores, now: int)
    ensures Sweep(s, now).holds == s.holds - ExpiredKeys(s.holds, now)
  {
  }

  /** The table a hold points at exists and the hold's index lies inside
      its seats: the case in which `expire_holds` goes on to read
      `tab["seats"][idx]`. */
  predicate IndexesSeat(tables: map<string, Table>, h: HoldRecord) {
    h.tableId in tables && 0 <= h.seatIndex < |tables[h.tableId].seats|
  }

  /** Some expired hold makes `expire_holds`, as written, index a seat list
      with the stored seat index. boto3 returns every stored number as a
      `decimal.Decimal`, and Python refuses a `Decimal` list index with a
      `TypeError`, so the pass raises when it reaches that hold. */
  predicate SweepRaises(s: Stores, now: int) {
    exists k :: k in s.holds && IsExpired(s.holds[k], now) && IndexesSeat(s.tables, s.holds[k])
  }

  /** The two stores as one object whose methods are the helper functions of
      app/store_dynamo.py. */
  class Store {
    var tables: map<string, Table>
    var holds: map<string, HoldRecord>

    function Contents(): Stores
      reads this
    {
      Stores(tables, holds)
    }

    ghost predicate Valid()
      reads this
    {
      Wf(Contents())
    }

    constructor ()
      ensures Valid() && tables == map[] && holds == map[]
    {
      tables := map[];
      holds := map[];
    }

    /** `get_table`: the record under `tableId`, or None. */
    function GetTable(tableId: string): (r: Option<Table>)
      reads this
      ensures r.Some? <==> tableId in tables
      ensures r.Some? ==> r.value == tables[tableId]
    {
      if tableId in tables then Some(tables[tableId]) else None
    }

    /** `upsert_table`: create or overwrite the whole record. */
    method UpsertTable(item: Table)
      requires Valid()
      modifies this
      ensures Valid()
      ensures tables == PutTable(old(tables), item) && holds == old(holds)
    {
      tables := tables[item.tableId := item];
    }

    /** `save_table`: the same `put_item` as `upsert_table`. */
    method SaveTable(item: Table)
      requires Valid()
      modifies this
      ensures Valid()
      ensures tables == PutTable(old(tables), item) && holds == old(holds)
    {
      UpsertTable(item);
    }

    /** `get_floor_tables`: every record whose `floorId` is `floorId`, each
        once, in an order the store chooses. */
    method GetFloorTables(floorId: string) returns (items: seq<Table>)
      requires Valid()
      ensures forall i :: 0 <= i < |items| ==>
        items[i].tableId in tables && tables[items[i].tableId] == items[i] && items[i].floorId == floorId
      ensures forall k :: k in tables && tables[k].floorId == floorId ==> tables[k] in items
      ensures forall i, j :: 0 <= i < j < |items| ==> items[i].tableId != items[j].tableId
    {
      items := [];
      var pending := tables.Keys;
      while pending != {}
        invariant pending <= tables.Keys
        invariant forall i :: 0 <= i < |items| ==>
          items[i].tableId in tables && items[i].tableId !in pending
          && tables[items[i].tableId] == items[i] && items[i].floorId == floorId
        invariant forall k :: k in tables && k !in pending && tables[k].floorId == floorId ==> tables[k] in items
        invariant forall i, j :: 0 <= i < j < |items| ==> items[i].tableId != items[j].tableId
        decreases |pending|
      {
        var k :| k in pending;
        if tables[k].floorId == floorId {
          items := items + [tables[k]];
        }
        pending := pending - {k};
      }
    }

    /** `create_hold`: one new record expiring `ttlSec` seconds after `now`,
        stored under the fresh id, which is returned. */
    method CreateHold(tableId: string, seatIndex: int, ttlSec: int, now: int, freshId: string)
      returns (holdId: string)
      requires Valid()
      modifies this
      ensures Valid()
      ensures holdId == freshId
      ensures holds == old(holds)[freshId := NewHold(freshId, tableId, seatIndex, now, ttlSec)]
      ensures tables == old(tables)
    {
      holdId := freshId;
      holds := holds[holdId := NewHold(holdId, tableId, seatIndex, now, ttlSec)];
    }

    /** `get_hold`: the record under `holdId`, or None. */
    function GetHold(holdId: string): (r: Option<HoldRecord>)
      reads this
      ensures r.Some? <==> holdId in holds
      ensures r.Some? ==> r.value == holds[holdId]
    {
      if holdId in holds then Some(holds[holdId]) else None
    }

    /** `delete_hold`: removes that key only (a missing key is a no-op). */
    method DeleteHold(holdId: string)
      requires Valid()
      modifies this
      ensures Valid()
      ensures holds == old(holds) - {holdId} && tables == old(tables)
    {
      holds := holds - {holdId};
    }

    /** `expire_holds`: one pass over a scan of the holds table, in whatever
        order the scan returns. Each expired hold frees its seat if that seat
        exists and is still HELD, and is then deleted. */
    method ExpireHolds(now: int)
      requires Valid()
      modifies this
      ensures Valid()
      ensures Contents() == Sweep(old(Contents()), now)
    {
      var scanned := holds;
      ghost var t0 := tables;
      var pending := scanned.Keys;
      assert Targets(scanned, ExpiredKeys(scanned, now) - pending) == {};
      FreeNothing(t0);
      while pending != {}
        invariant pending <= scanned.Keys
        invariant forall h :: h in scanned ==> scanned[h].holdId == h
        invariant Valid()
        invariant holds == scanned - (ExpiredKeys(scanned, now) - pending)
        invariant tables == FreeTargets(t0, Targets(scanned, ExpiredKeys(scanned, now) - pending))
        decreases |pending|
      {
        var k :| k in pending;
        var h := scanned[k];
        ghost var doneBefore := ExpiredKeys(scanned, now) - pending;
        DoneStep(scanned, now, pending, k);
        if IsExpired(h, now) {
          ghost var p := (h.tableId, h.seatIndex);
          TargetsAdd(scanned, doneBefore, k);
          FreeTargetsStep(t0, Targets(scanned, doneBefore), p);
          var tab := GetTable(h.tableId);
          if tab.Some? {
            var t := tab.value;
            var idx := h.seatIndex;
            if 0 <= idx < |t.seats| && t.seats[idx].status == HELD {
              SaveTable(SetStatus(t, idx, FREE));
            }
          }
          DeleteHold(h.holdId);
          SubtractTwice(scanned, doneBefore, {k});
        }
        pending := pending - {k};
      }
      assert ExpiredKeys(scanned, now) - pending == ExpiredKeys(scanned, now);
    }

    /** `expire_holds` exactly as written, with the seat index left as the
        `Decimal` the scan returned. The expired holds whose table is
        missing or whose index is out of range are deleted; at the first
        expired hold that indexes a seat the pass raises. No seat is ever
        freed, and the holds scanned after the raise are left alone. */
    method ExpireHoldsAsWritten(now: int) returns (raised: bool)
      requires Valid()
      modifies this
      ensures Valid()
      ensures raised <==> SweepRaises(old(Contents()), now)
      ensures tables == old(tables)
      ensures !raised ==> holds == old(holds) - ExpiredKeys(old(holds), now)
      ensures holds.Keys <= old(holds).Keys
      ensures forall k :: k in holds ==> holds[k] == old(holds)[k]
      ensures forall k :: k in old(holds) && k !in holds ==>
        IsExpired(old(holds)[k], now) && !IndexesSeat(old(tables), old(holds)[k])
    {
      var scanned := holds;
      var pending := scanned.Keys;
      raised := false;
      while pending != {} && !raised
        invariant pending <= scanned.Keys
        invariant Valid()
        invariant tables == old(tables) && scanned == old(holds)
        invariant holds == scanned - (ExpiredKeys(scanned, now) - pending)
        invariant forall h :: h in scanned && h !in pending && IsExpired(scanned[h], now) ==>
          !IndexesSeat(tables, scanned[h])
        invariant raised ==> SweepRaises(old(Contents()), now)
        decreases |pending|, !raised
      {
        var k :| k in pending;
        var h := scanned[k];
        if IsExpired(h, now) {
          var tab := GetTable(h.tableId);
          if tab.Some? && 0 <= h.seatIndex < |tab.value.seats| {
            // `tab["seats"][idx]` with a `Decimal` index: TypeError.
            raised := true;
          } else {
            DoneStep(scanned, now, pending, k);
            SubtractTwice(scanned, ExpiredKeys(scanned, now) - pending, {k});
            DeleteHold(h.holdId);
            pending := pending - {k};
          }
        } else {
          DoneStep(scanned, now, pending, k);
          pending := pending - {k};
        }
      }
      if !raised {
        assert ExpiredKeys(scanned, now) - pending == ExpiredKeys(scanned, now);
      }
    }
  }
}
