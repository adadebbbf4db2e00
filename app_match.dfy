/** The study-buddy finder route of the library API (`match_tables` in
    app/main.py): tables of the requested floor, or of floors F1..F11,
    that are open to join and share a course code with the request. */
module AppMatch {
  import opened Wrappers
  import opened Text
  import opened StoreDynamo

  /** `[floor_id] if floor_id else [f"F{i}" for i in range(1, 12)]`: an
      absent or empty floor id means all eleven floors. */
  function FloorsToVisit(floorId: Option<string>): (fs: seq<string>)
    ensures |fs| >= 1
  {
    if floorId.Some? && floorId.value != "" then [floorId.value]
    else seq(11, i requires 0 <= i < 11 => FloorId(i + 1))
  }

  /** The floors are visited in the order F1, F2, ..., F11 (or just the one
      given), each once. */
  lemma FloorsToVisitDistinct(floorId: Option<string>)
    ensures floorId.Some? && floorId.value != "" ==> FloorsToVisit(floorId) == [floorId.value]
    ensures floorId.None? || floorId.value == "" ==>
      var fs := FloorsToVisit(floorId);
      |fs| == 11 && forall i :: 0 <= i < 11 ==> fs[i] == FloorId(i + 1)
    ensures var fs := FloorsToVisit(floorId);
      forall i, j :: 0 <= i < j < |fs| ==> fs[i] != fs[j]
  {
    var fs := FloorsToVisit(floorId);
    forall i, j | 0 <= i < j < |fs| ensures fs[i] != fs[j] {
      if fs[i] == fs[j] {
        FloorIdInjective(i + 1, j + 1);
      }
    }
  }

  /** Position of the first occurrence of `f` in `floors` (|floors| if none). */
  function FloorRank(floors: seq<string>, f: string): (r: nat)
    ensures r <= |floors|
    ensures r < |floors| ==> floors[r] == f
    ensures forall i :: 0 <= i < r ==> floors[i] != f
  {
    if floors == [] then 0
    else if floors[0] == f then 0
    else 1 + FloorRank(floors[1..], f)
  }

  /** Some course code of the table equals some requested course, ignoring
      ASCII case. */
  predicate SharesCourse(have: seq<string>, want: seq<string>) {
    exists i, j :: 0 <= i < |have| && 0 <= j < |want| && Upper(have[i]) == Upper(want[j])
  }

  /** The filter of `match_tables`, stated directly. */
  predicate Wanted(t: Table, courses: seq<string>, openOnly: bool) {
    && (!openOnly || t.isOpenToJoin)
    && (courses == [] || SharesCourse(t.courseCodes, courses))
  }

  /** `set(c.upper() for c in cs)`. */
  function UpperSet(cs: seq<string>): set<string> {
    set c | c in cs :: Upper(c)
  }

  /** The set intersection the route computes is non-empty exactly when
      the two lists share a course ignoring case. */
  lemma UpperSetsMeet(have: seq<string>, want: seq<string>)
    ensures UpperSet(have) * UpperSet(want) != {} <==> SharesCourse(have, want)
  {
    if UpperSet(have) * UpperSet(want) != {} {
      var u :| u in UpperSet(have) * UpperSet(want);
      var c :| c in have && Upper(c) == u;
      var d :| d in want && Upper(d) == u;
      var i :| 0 <= i < |have| && have[i] == c;
      var j :| 0 <= j < |want| && want[j] == d;
      assert Upper(have[i]) == Upper(want[j]);
    }
    if SharesCourse(have, want) {
      var i, j :| 0 <= i < |have| && 0 <= j < |want| && Upper(have[i]) == Upper(want[j]);
      assert Upper(have[i]) in UpperSet(have) * UpperSet(want);
    }
  }

  /** The two `continue` guards of the route's inner loop, as the route
      computes them: open-to-join, then a non-empty intersection of the
      upper-cased course sets when courses were requested. */
  function Passes(t: Table, courses: seq<string>, openOnly: bool): (b: bool)
    ensures b <==> Wanted(t, courses, openOnly)
  {
    if openOnly && !t.isOpenToJoin then false
    else if courses != [] then
      UpperSetsMeet(t.courseCodes, courses);
      UpperSet(t.courseCodes) * UpperSet(courses) != {}
    else true
  }

  /** What the outer loop of `match_tables` has established once the
      floors before position `fi` are done. */
  ghost predicate MatchedUpTo(tables: map<string, Table>, floors: seq<string>, fi: int, out: seq<Table>,
                              courses: seq<string>, openOnly: bool)
  {
    && (forall i :: 0 <= i < |out| ==>
          && out[i].tableId in tables && tables[out[i].tableId] == out[i]
          && FloorRank(floors, out[i].floorId) < fi
          && Wanted(out[i], courses, openOnly))
    && (forall k :: (k in tables && FloorRank(floors, tables[k].floorId) < fi
                     && Wanted(tables[k], courses, openOnly)) ==> tables[k] in out)
    && (forall i, j :: 0 <= i < j < |out| ==>
          FloorRank(floors, out[i].floorId) <= FloorRank(floors, out[j].floorId))
    && (forall i, j :: 0 <= i < j < |out| ==> out[i].tableId != out[j].tableId)
  }

  /** What `get_floor_tables(f)` promises about `items`. */
  ghost predicate FloorItems(tables: map<string, Table>, f: string, items: seq<Table>) {
    && (forall i :: 0 <= i < |items| ==>
          items[i].tableId in tables && tables[items[i].tableId] == items[i] && items[i].floorId == f)
    && (forall k :: k in tables && tables[k].floorId == f ==> tables[k] in items)
    && (forall i, j :: 0 <= i < j < |items| ==> items[i].tableId != items[j].tableId)
  }

  /** What the inner loop keeps of the first `j` items of a floor. */
  ghost predicate KeptOf(items: seq<Table>, j: int, kept: seq<Table>, courses: seq<string>, openOnly: bool)
    requires 0 <= j <= |items|
  {
    && (forall x :: x in kept ==> x in items[..j] && Wanted(x, courses, openOnly))
    && (forall i :: 0 <= i < j && Wanted(items[i], courses, openOnly) ==> items[i] in kept)
    && (forall a, b :: 0 <= a < b < |kept| ==> kept[a].tableId != kept[b].tableId)
  }

  lemma KeptStep(tables: map<string, Table>, f: string, items: seq<Table>, j: int, kept: seq<Table>,
                 courses: seq<string>, openOnly: bool)
    requires FloorItems(tables, f, items)
    requires 0 <= j < |items| && KeptOf(items, j, kept, courses, openOnly)
    ensures Wanted(items[j], courses, openOnly) ==> KeptOf(items, j + 1, kept + [items[j]], courses, openOnly)
    ensures !Wanted(items[j], courses, openOnly) ==> KeptOf(items, j + 1, kept, courses, openOnly)
  {
    assert items[..j + 1] == items[..j] + [items[j]];
    forall a | 0 <= a < |kept| ensures kept[a].tableId != items[j].tableId {
      assert kept[a] in items[..j];
    }
  }

  /** Appending the kept tables of floor `floors[fi]` completes that floor. */
  lemma FloorDone(tables: map<string, Table>, floors: seq<string>, fi: int, before: seq<Table>,
                  items: seq<Table>, kept: seq<Table>, courses: seq<string>, openOnly: bool)
    requires 0 <= fi < |floors| && FloorRank(floors, floors[fi]) == fi
    requires MatchedUpTo(tables, floors, fi, before, courses, openOnly)
    requires FloorItems(tables, floors[fi], items)
    requires KeptOf(items, |items|, kept, courses, openOnly)
    ensures MatchedUpTo(tables, floors, fi + 1, before + kept, courses, openOnly)
  {
    var out := before + kept;
    assert items[..|items|] == items;
    forall i | |before| <= i < |out|
      ensures && out[i].tableId in tables && tables[out[i].tableId] == out[i]
              && FloorRank(floors, out[i].floorId) == fi
              && Wanted(out[i], courses, openOnly)
    {
      var x := kept[i - |before|];
      assert out[i] == x;
      assert x in items;
      var m :| 0 <= m < |items| && items[m] == x;
    }
    forall k | k in tables && FloorRank(floors, tables[k].floorId) == fi && Wanted(tables[k], courses, openOnly)
      ensures tables[k] in out
    {
      assert tables[k].floorId == floors[fi];
      assert tables[k] in items;
      var m :| 0 <= m < |items| && items[m] == tables[k];
      assert tables[k] in kept;
      var a :| 0 <= a < |kept| && kept[a] == tables[k];
      assert out[|before| + a] == tables[k];
    }
    forall i, j | 0 <= i < j < |out| ensures out[i].tableId != out[j].tableId {
      if i >= |before| {
        assert out[i] == kept[i - |before|] && out[j] == kept[j - |before|];
      } else if j >= |before| {
        assert FloorRank(floors, out[i].floorId) < fi == FloorRank(floors, out[j].floorId);
        assert tables[out[i].tableId] == out[i] != out[j] == tables[out[j].tableId];
      }
    }
  }

  /** After the last floor: a returned table's floor is one of those
      visited, and every wanted table of a visited floor was returned. */
  lemma AllFloorsDone(tables: map<string, Table>, floors: seq<string>, out: seq<Table>,
                      courses: seq<string>, openOnly: bool)
    requires MatchedUpTo(tables, floors, |floors|, out, courses, openOnly)
    ensures forall i :: 0 <= i < |out| ==> out[i].floorId in floors
    ensures forall k :: (k in tables && tables[k].floorId in floors
                         && Wanted(tables[k], courses, openOnly)) ==> tables[k] in out
  {
    forall i | 0 <= i < |out| ensures out[i].floorId in floors {
      assert floors[FloorRank(floors, out[i].floorId)] == out[i].floorId;
    }
    forall k | k in tables && tables[k].floorId in floors
      ensures FloorRank(floors, tables[k].floorId) < |floors|
    {
      var i :| 0 <= i < |floors| && floors[i] == tables[k].floorId;
    }
  }

  /** The tables of `items` that the filter wants, in their order in
      `items`. */
  function Filter(items: seq<Table>, courses: seq<string>, openOnly: bool): (r: seq<Table>)
    ensures |r| <= |items|
  {
    if items == [] then []
    else
      var last := items[|items| - 1];
      Filter(items[..|items| - 1], courses, openOnly) + (if Wanted(last, courses, openOnly) then [last] else [])
  }

  /** The inner loop of `match_tables`: one floor's tables, in the order
      the store returned them, keeping those that pass both guards. */
  method KeepPassing(ghost tables: map<string, Table>, ghost f: string, items: seq<Table>,
                     courses: seq<string>, openOnly: bool) returns (kept: seq<Table>)
    requires FloorItems(tables, f, items)
    ensures kept == Filter(items, courses, openOnly)
    ensures KeptOf(items, |items|, kept, courses, openOnly)
  {
    kept := [];
    var j := 0;
    while j < |items|
      invariant 0 <= j <= |items|
      invariant kept == Filter(items[..j], courses, openOnly)
      invariant KeptOf(items, j, kept, courses, openOnly)
    {
      assert items[..j + 1][..j] == items[..j];
      KeptStep(tables, f, items, j, kept, courses, openOnly);
      if Passes(items[j], courses, openOnly) {
        kept := kept + [items[j]];
      }
      j := j + 1;
    }
    assert items[..|items|] == items;
  }

  /** GET /match: floor by floor in the order visited, the floor's tables in
      store order, keeping those the filter wants. Every wanted table of a
      visited floor is returned, once, and nothing else is. */
  method MatchTables(db: Store, floorId: Option<string>, courses: seq<string>, openOnly: bool)
    returns (out: seq<Table>)
    requires db.Valid()
    ensures forall i :: 0 <= i < |out| ==>
      && out[i].tableId in db.tables && db.tables[out[i].tableId] == out[i]
      && out[i].floorId in FloorsToVisit(floorId)
      && Wanted(out[i], courses, openOnly)
    ensures forall k :: (k in db.tables && db.tables[k].floorId in FloorsToVisit(floorId)
                         && Wanted(db.tables[k], courses, openOnly)) ==> db.tables[k] in out
    ensures forall i, j :: 0 <= i < j < |out| ==>
      FloorRank(FloorsToVisit(floorId), out[i].floorId) <= FloorRank(FloorsToVisit(floorId), out[j].floorId)
    ensures forall i, j :: 0 <= i < j < |out| ==> out[i].tableId != out[j].tableId
  {
    var floors := FloorsToVisit(floorId);
    assert forall i, j :: 0 <= i < j < |floors| ==> floors[i] != floors[j] by {
      FloorsToVisitDistinct(floorId);
    }
    out := [];
    var fi := 0;
    while fi < |floors|
      invariant 0 <= fi <= |floors|
      invariant MatchedUpTo(db.tables, floors, fi, out, courses, openOnly)
    {
      var f := floors[fi];
      assert FloorRank(floors, f) == fi;
      var items := db.GetFloorTables(f);
      ghost var before := out;
      var kept := KeepPassing(db.tables, f, items, courses, openOnly);
      out := out + kept;
      FloorDone(db.tables, floors, fi, before, items, kept, courses, openOnly);
      fi := fi + 1;
    }
    AllFloorsDone(db.tables, floors, out, courses, openOnly);
  }
}
