/** The development seeding script (app/seed.py): every table object of
    the seed file gets a fresh list of FREE seats and defaults for the
    matching metadata, and is upserted into the tables store. */
module Seed {
  import opened Wrappers
  import opened Text
  import opened StoreDynamo

  /** A table object as read from the seed file; the attributes the script
      overwrites or defaults may be absent. */
  datatype SeedTable = SeedTable(
    tableId: string,
    floorId: string,
    kind: string,
    capacity: int,
    tags: seq<string>,
    seats: Option<seq<Seat>>,
    isOpenToJoin: Option<bool>,
    topicTags: Option<seq<string>>,
    courseCodes: Option<seq<string>>)

  /** The seed document; its `tables` list may be absent. */
  datatype SeedDoc = SeedDoc(tables: Option<seq<SeedTable>>)

  datatype SeedResult = SystemExit(message: string) | Seeded(count: nat)

  /** `f"{tableId}-S{i}"`. */
  function SeatId(tableId: string, i: nat): string {
    tableId + "-S" + Digits(i)
  }

  /** `[{"seatId": ..., "status": "FREE"} for i in range(capacity)]`. */
  function ExpandSeats(tableId: string, capacity: int): seq<Seat> {
    if capacity <= 0 then []
    else seq(capacity, i requires 0 <= i < capacity => Seat(SeatId(tableId, i), FREE, None))
  }

  /** The per-table rewrite of `run_seed`: seats replaced, then
      `setdefault` for the three matching attributes. */
  function Prepare(t: SeedTable): Table {
    Table(t.tableId, t.floorId, t.kind, t.capacity, t.tags,
          ExpandSeats(t.tableId, t.capacity),
          t.isOpenToJoin.GetOr(false), t.topicTags.GetOr([]), t.courseCodes.GetOr([]))
  }

  /** The tables store after upserting the prepared tables in order. */
  function UpsertAll(tables: map<string, Table>, ts: seq<SeedTable>): map<string, Table> {
    if ts == [] then tables
    else PutTable(UpsertAll(tables, ts[..|ts| - 1]), Prepare(ts[|ts| - 1]))
  }

  const MissingSeedFile: string := "data/seedData.json not found. Run tools/generate_seed.py first."

  /** `run_seed`, given the parsed seed file or None when it does not
      exist: a missing file stops the script before anything is written;
      otherwise one upsert per table object and the count of them. */
  method RunSeed(db: Store, seedFile: Option<SeedDoc>) returns (result: SeedResult)
    requires db.Valid()
    modifies db
    ensures db.Valid() && db.holds == old(db.holds)
    ensures seedFile.None? ==> result == SystemExit(MissingSeedFile) && db.tables == old(db.tables)
    ensures seedFile.Some? ==>
      var ts := seedFile.value.tables.GetOr([]);
      result == Seeded(|ts|) && db.tables == UpsertAll(old(db.tables), ts)
  {
    if seedFile.None? {
      return SystemExit(MissingSeedFile);
    }
    var ts := seedFile.value.tables.GetOr([]);
    var count := 0;
    for i := 0 to |ts|
      invariant db.Valid() && db.holds == old(db.holds)
      invariant count == i
      invariant db.tables == UpsertAll(old(db.tables), ts[..i])
    {
      var t := Prepare(ts[i]);
      db.UpsertTable(t);
      count := count + 1;
      assert ts[..i + 1][..i] == ts[..i];
    }
    assert ts[..|ts|] == ts;
    result := Seeded(count);
  }

  // ---------------------------------------------------------------------
  // Properties

  /** A prepared table has as many seats as its capacity (none for a
      capacity below one), seat `i` is FREE with id `{tableId}-S{i}` and no
      occupant, whatever seats it had before; the matching attributes keep
      a present value and otherwise default to false, [] and []. */
  lemma PrepareEffect(t: SeedTable)
    ensures var r := Prepare(t);
      && |r.seats| == (if t.capacity > 0 then t.capacity else 0)
      && (forall i :: 0 <= i < |r.seats| ==> r.seats[i] == Seat(t.tableId + "-S" + Digits(i), FREE, None))
      && r.tableId == t.tableId && r.floorId == t.floorId && r.kind == t.kind
      && r.capacity == t.capacity && r.tags == t.tags
      && r.isOpenToJoin == (if t.isOpenToJoin.Some? then t.isOpenToJoin.value else false)
      && r.topicTags == (if t.topicTags.Some? then t.topicTags.value else [])
      && r.courseCodes == (if t.courseCodes.Some? then t.courseCodes.value else [])
  {
  }

  /** Any seats already in the seed object are discarded. */
  lemma PrepareOverwritesSeats(t: SeedTable, previous: Option<seq<Seat>>)
    ensures Prepare(t.(seats := previous)) == Prepare(t)
  {
  }

  /** The seat ids of a prepared table are pairwise different. */
  lemma SeatIdsDistinct(t: SeedTable, i: int, j: int)
    requires 0 <= i < j < |Prepare(t).seats|
    ensures Prepare(t).seats[i].seatId != Prepare(t).seats[j].seatId
  {
    var p := |t.tableId| + 2;
    var a := SeatId(t.tableId, i);
    var b := SeatId(t.tableId, j);
    assert Prepare(t).seats[i].seatId == a && Prepare(t).seats[j].seatId == b;
    if a == b {
      assert a[p..] == Digits(i) && b[p..] == Digits(j);
      DigitsInjective(i, j);
    }
  }

  /** The table ids of a list of seed objects. */
  function Ids(ts: seq<SeedTable>): (ids: set<string>)
    ensures forall i :: 0 <= i < |ts| ==> ts[i].tableId in ids
  {
    if ts == [] then {} else Ids(ts[..|ts| - 1]) + {ts[|ts| - 1].tableId}
  }

  /** No later seed object has the same table id as the one at `i`. */
  ghost predicate LastOccurrence(ts: seq<SeedTable>, i: int)
    requires 0 <= i < |ts|
  {
    forall j :: i < j < |ts| ==> ts[j].tableId != ts[i].tableId
  }

  /** After seeding, the keys are the old ones plus the seeded ids, and a
      key that no seed object names is untouched. */
  lemma {:induction false} UpsertAllKeys(tables: map<string, Table>, ts: seq<SeedTable>)
    ensures UpsertAll(tables, ts).Keys == tables.Keys + Ids(ts)
    ensures forall k :: k in tables && k !in Ids(ts) ==> UpsertAll(tables, ts)[k] == tables[k]
  {
    if ts != [] {
      UpsertAllKeys(tables, ts[..|ts| - 1]);
    }
  }

  /** A seeded id holds the prepared version of its last occurrence. */
  lemma {:induction false} UpsertAllLast(tables: map<string, Table>, ts: seq<SeedTable>, i: int)
    requires 0 <= i < |ts| && LastOccurrence(ts, i)
    ensures ts[i].tableId in UpsertAll(tables, ts)
    ensures UpsertAll(tables, ts)[ts[i].tableId] == Prepare(ts[i])
  {
    var last := |ts| - 1;
    if i < last {
      var init := ts[..last];
      assert init[i] == ts[i];
      assert LastOccurrence(init, i) by {
        forall j | i < j < |init| ensures init[j].tableId != init[i].tableId {
          assert init[j] == ts[j];
        }
      }
      UpsertAllLast(tables, init, i);
    }
  }

  /** Seeding an empty store with distinct ids leaves one record per seed
      object: as many as the count the script reports. */
  lemma SeedFreshStore(ts: seq<SeedTable>)
    requires forall i, j :: 0 <= i < j < |ts| ==> ts[i].tableId != ts[j].tableId
    ensures |UpsertAll(map[], ts)| == |ts|
    ensures forall i :: 0 <= i < |ts| ==>
      ts[i].tableId in UpsertAll(map[], ts) && UpsertAll(map[], ts)[ts[i].tableId] == Prepare(ts[i])
  {
    var r := UpsertAll(map[], ts);
    forall i | 0 <= i < |ts| ensures ts[i].tableId in r && r[ts[i].tableId] == Prepare(ts[i]) {
      UpsertAllLast(map[], ts, i);
    }
    UpsertAllKeys(map[], ts);
    IdsDistinctSize(ts);
    assert r.Keys == Ids(ts);
    assert |r| == |r.Keys|;
  }

  lemma {:induction false} IdsDistinctSize(ts: seq<SeedTable>)
    requires forall i, j :: 0 <= i < j < |ts| ==> ts[i].tableId != ts[j].tableId
    ensures |Ids(ts)| == |ts|
  {
    if ts != [] {
      var init := ts[..|ts| - 1];
      IdsDistinctSize(init);
      assert ts[|ts| - 1].tableId !in Ids(init) by {
        IdsMembers(init);
      }
    }
  }

  lemma {:induction false} IdsMembers(ts: seq<SeedTable>)
    ensures forall x :: x in Ids(ts) ==> exists i :: 0 <= i < |ts| && ts[i].tableId == x
  {
    if ts != [] {
      var init := ts[..|ts| - 1];
      IdsMembers(init);
      forall x | x in Ids(ts) ensures exists i :: 0 <= i < |ts| && ts[i].tableId == x {
        if x in Ids(init) {
          var i :| 0 <= i < |init| && init[i].tableId == x;
          assert ts[i] == init[i];
        } else {
          assert ts[|ts| - 1].tableId == x;
        }
      }
    }
  }
}
