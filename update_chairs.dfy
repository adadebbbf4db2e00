/** Direct occupancy writes from the camera-detection side
    (app/update_chairs.py): per-seat `update_item` calls on the tables
    store that set or clear the status and occupant of single seats,
    never rewriting the whole item. */
module UpdateChairs {
  import opened Wrappers
  import opened Text
  import opened StoreDynamo

  /** `f"student_{i+1}"`: the occupant written for seat `i`. */
  function StudentId(i: nat): string {
    "student_" + Digits(i + 1)
  }

  /** `SET seats[i].status = "OCCUPIED", seats[i].occupantUserId = student_{i+1}`. */
  function Occupy(seat: Seat, i: nat): Seat {
    seat.(status := OCCUPIED, occupantUserId := Some(StudentId(i)))
  }

  /** `SET seats[i].status = "FREE" REMOVE seats[i].occupantUserId`. */
  function Vacate(seat: Seat): Seat {
    seat.(status := FREE, occupantUserId := None)
  }

  /** Table `t` after every in-range index of `indices` has been occupied;
      out-of-range indices are skipped. */
  function MarkOccupied(t: Table, indices: seq<int>): (r: Table)
    ensures |r.seats| == |t.seats|
  {
    t.(seats := seq(|t.seats|, j requires 0 <= j < |t.seats| =>
      if j in indices then Occupy(t.seats[j], j) else t.seats[j]))
  }

  /** Table `t` with its first `n` seats vacated. */
  function VacateFirst(t: Table, n: int): (r: Table)
    ensures |r.seats| == |t.seats|
  {
    t.(seats := seq(|t.seats|, j requires 0 <= j < |t.seats| =>
      if j < n then Vacate(t.seats[j]) else t.seats[j]))
  }

  /** `update_table_with_occupied_chairs`: an empty list or a missing table
      changes nothing; otherwise exactly the listed in-range seats of that
      table are occupied, bounds taken from the seat count read first. */
  method UpdateTableWithOccupiedChairs(db: Store, tableId: string, indices: seq<int>)
    requires db.Valid()
    modifies db
    ensures db.Valid() && db.holds == old(db.holds)
    ensures db.tables == if tableId in old(db.tables)
                         then old(db.tables)[tableId := MarkOccupied(old(db.tables)[tableId], indices)]
                         else old(db.tables)
  {
    if indices == [] {
      if tableId in db.tables {
        MarkNothing(db.tables[tableId]);
        assert db.tables == db.tables[tableId := db.tables[tableId]];
      }
      return;
    }
    var item := db.GetTable(tableId);
    if item.None? {
      return;
    }
    var t0 := item.value;
    var n := |t0.seats|;
    MarkNothing(t0);
    assert db.tables == db.tables[tableId := MarkOccupied(t0, indices[..0])];
    var k := 0;
    while k < |indices|
      invariant 0 <= k <= |indices|
      invariant db.Valid() && db.holds == old(db.holds)
      invariant db.tables == old(db.tables)[tableId := MarkOccupied(t0, indices[..k])]
    {
      var i := indices[k];
      MarkOccupiedStep(t0, indices[..k], i);
      assert indices[..k + 1] == indices[..k] + [i];
      if 0 <= i < n {
        var t := db.tables[tableId];
        db.tables := db.tables[tableId := t.(seats := t.seats[i := Occupy(t.seats[i], i)])];
      }
      k := k + 1;
    }
    assert indices[..k] == indices;
  }

  /** `reset_all_seats_to_free`: a missing table changes nothing; otherwise
      every seat of the table is vacated. */
  method ResetAllSeatsToFree(db: Store, tableId: string)
    requires db.Valid()
    modifies db
    ensures db.Valid() && db.holds == old(db.holds)
    ensures db.tables == if tableId in old(db.tables)
                         then old(db.tables)[tableId := VacateFirst(old(db.tables)[tableId], |old(db.tables)[tableId].seats|)]
                         else old(db.tables)
  {
    var item := db.GetTable(tableId);
    if item.None? {
      return;
    }
    var t0 := item.value;
    var n := |t0.seats|;
    assert t0.(seats := VacateFirst(t0, 0).seats) == t0;
    assert db.tables == old(db.tables)[tableId := VacateFirst(t0, 0)];
    for i := 0 to n
      invariant db.Valid() && db.holds == old(db.holds)
      invariant db.tables == old(db.tables)[tableId := VacateFirst(t0, i)]
    {
      var t := db.tables[tableId];
      db.tables := db.tables[tableId := t.(seats := t.seats[i := Vacate(t.seats[i])])];
      assert db.tables[tableId].seats == VacateFirst(t0, i + 1).seats;
    }
  }

  // ---------------------------------------------------------------------
  // Properties

  /** The empty list of indices is a no-op. */
  lemma MarkNothing(t: Table)
    ensures MarkOccupied(t, []) == t
  {
    assert MarkOccupied(t, []).seats == t.seats;
  }

  /** One more index, in terms of the closed form. */
  lemma MarkOccupiedStep(t: Table, xs: seq<int>, i: int)
    ensures var cur := MarkOccupied(t, xs);
      MarkOccupied(t, xs + [i]) ==
        if 0 <= i < |t.seats| then cur.(seats := cur.seats[i := Occupy(cur.seats[i], i)]) else cur
  {
    var cur := MarkOccupied(t, xs);
    var a := MarkOccupied(t, xs + [i]).seats;
    var b := if 0 <= i < |t.seats| then cur.seats[i := Occupy(cur.seats[i], i)] else cur.seats;
    forall j | 0 <= j < |a| ensures a[j] == b[j] {
      assert (j in xs + [i]) <==> (j in xs || j == i);
    }
    assert a == b;
  }

  /** Each listed in-range seat ends OCCUPIED with occupant
      `student_{i+1}` and its seat id kept; every other seat, the seat
      count and every other field are unchanged. */
  lemma MarkOccupiedEffect(t: Table, indices: seq<int>, j: int)
    requires 0 <= j < |t.seats|
    ensures var r := MarkOccupied(t, indices);
      && |r.seats| == |t.seats|
      && r.(seats := t.seats) == t
      && (j in indices ==>
            && r.seats[j].status == OCCUPIED
            && r.seats[j].occupantUserId == Some("student_" + Digits(j + 1))
            && r.seats[j].seatId == t.seats[j].seatId)
      && (j !in indices ==> r.seats[j] == t.seats[j])
  {
  }

  /** Occupants written into different seats are different. */
  lemma StudentIdsDistinct(i: nat, j: nat)
    requires i != j
    ensures StudentId(i) != StudentId(j)
  {
    if StudentId(i) == StudentId(j) {
      assert Digits(i + 1) == StudentId(i)[8..];
      assert Digits(j + 1) == StudentId(j)[8..];
      DigitsInjective(i + 1, j + 1);
    }
  }

  /** Writing the same list twice is the same as writing it once. */
  lemma MarkOccupiedIdempotent(t: Table, indices: seq<int>)
    ensures MarkOccupied(MarkOccupied(t, indices), indices) == MarkOccupied(t, indices)
  {
    var r := MarkOccupied(t, indices);
    var a := MarkOccupied(r, indices).seats;
    forall j | 0 <= j < |a| ensures a[j] == r.seats[j] {
    }
    assert a == r.seats;
  }

  /** Two calls in a row equal one call with both lists, so the order and
      the grouping of the writes do not matter. */
  lemma MarkOccupiedCompose(t: Table, xs: seq<int>, ys: seq<int>)
    ensures MarkOccupied(MarkOccupied(t, xs), ys) == MarkOccupied(t, xs + ys)
  {
    var a := MarkOccupied(MarkOccupied(t, xs), ys).seats;
    var b := MarkOccupied(t, xs + ys).seats;
    forall j | 0 <= j < |a| ensures a[j] == b[j] {
      assert (j in xs + ys) <==> (j in xs || j in ys);
    }
    assert a == b;
  }

  /** After a reset every seat is FREE with no occupant, with its seat id
      and the seat count kept, and no other field changes. */
  lemma ResetEffect(t: Table)
    ensures var r := VacateFirst(t, |t.seats|);
      && |r.seats| == |t.seats|
      && r.(seats := t.seats) == t
      && forall j :: 0 <= j < |r.seats| ==>
           r.seats[j].status == FREE && r.seats[j].occupantUserId.None? && r.seats[j].seatId == t.seats[j].seatId
  {
  }

  /** A reset wipes out any earlier occupancy write. */
  lemma ResetAfterMark(t: Table, indices: seq<int>)
    ensures VacateFirst(MarkOccupied(t, indices), |t.seats|) == VacateFirst(t, |t.seats|)
  {
    var a := VacateFirst(MarkOccupied(t, indices), |t.seats|).seats;
    var b := VacateFirst(t, |t.seats|).seats;
    forall j | 0 <= j < |a| ensures a[j] == b[j] {
    }
    assert a == b;
  }
}
