/** The layout generator for the seed data (tools/generate_seed.py):
    floors F1..F4 get mixed "group" layouts from a per-floor
    configuration, floors F5..F11 the same "quiet" plan; every table gets
    the id `{floor}-T{idx:02d}` with `idx` counting 1, 2, ... per floor. */
module GenerateSeed {
  import opened Text

  datatype FloorEntry = FloorEntry(floorId: string, level: nat, layout: string)

  /** A generated table; `kind` is the record's `type` attribute. */
  datatype LayoutTable = LayoutTable(tableId: string, floorId: string, kind: string, capacity: int, tags: seq<string>)

  /** What one `add_table` call is asked to add, apart from ids. */
  datatype Kind = Kind(kind: string, capacity: int, tags: seq<string>)

  /** An entry of LOWER_FLOOR_LAYOUTS. */
  datatype LowerConfig = LowerConfig(ind: nat, duo: nat, g4: nat, rooms: nat, roomCap: seq<int>)

  const LibId: string := "thompson"
  const LibName: string := "Thompson Library"

  function LowerFloorLayout(level: int): LowerConfig
    requires 1 <= level <= 4
  {
    if level == 1 then LowerConfig(25, 10, 10, 2, [6, 8])
    else if level == 2 then LowerConfig(22, 12, 10, 2, [6, 8])
    else if level == 3 then LowerConfig(26, 10, 10, 2, [6, 8])
    else LowerConfig(20, 12, 10, 1, [8])
  }

  /** The builders' level ranges: `range(1, 5)` and `range(5, 12)`. */
  const FirstFloor: nat := 1
  const FirstUpperFloor: nat := 5
  const EndFloor: nat := 12

  /** UPPER_FLOOR_PLAN: ind, duo, g4. */
  const UpperInd: nat := 20
  const UpperDuo: nat := 10
  const UpperG4: nat := 3

  /** `f"{floor_id}-T{idx:02d}"`. */
  function TableId(floorId: string, idx: nat): string {
    floorId + "-T" + Pad2(idx)
  }

  function MakeTable(floorId: string, idx: nat, k: Kind): LayoutTable {
    LayoutTable(TableId(floorId, idx), floorId, k.kind, k.capacity, k.tags)
  }

  /** The tables that `add_table` calls for `kinds`, in order, append when
      the counter starts at `start`. */
  function Layout(floorId: string, kinds: seq<Kind>, start: nat): (r: seq<LayoutTable>)
    ensures |r| == |kinds|
  {
    seq(|kinds|, i requires 0 <= i < |kinds| => MakeTable(floorId, start + i, kinds[i]))
  }

  function Repeat(n: nat, k: Kind): (r: seq<Kind>)
    ensures |r| == n
  {
    seq(n, _ => k)
  }

  const Individual: Kind := Kind("individual", 1, ["open"])
  const Duo: Kind := Kind("duo", 2, ["open"])
  const Group: Kind := Kind("group", 4, ["group"])
  const QuietIndividual: Kind := Kind("individual", 1, ["quiet", "solo"])
  const QuietDuo: Kind := Kind("duo", 2, ["quiet"])
  const QuietGroup: Kind := Kind("group", 4, ["quiet-group"])

  function Room(cap: int): Kind {
    Kind("room", cap, ["group-room", "bookable"])
  }

  function Rooms(caps: seq<int>): (r: seq<Kind>)
    ensures |r| == |caps|
  {
    seq(|caps|, i requires 0 <= i < |caps| => Room(caps[i]))
  }

  /** The order in which a floor's tables are added. */
  function FloorKinds(level: nat): seq<Kind> {
    if 1 <= level <= 4 then LowerKinds(LowerFloorLayout(level)) else UpperKinds()
  }

  function LowerKinds(cfg: LowerConfig): seq<Kind> {
    Repeat(cfg.ind, Individual) + Repeat(cfg.duo, Duo) + Repeat(cfg.g4, Group) + Rooms(cfg.roomCap)
  }

  function UpperKinds(): seq<Kind> {
    Repeat(UpperInd, QuietIndividual) + Repeat(UpperDuo, QuietDuo) + Repeat(UpperG4, QuietGroup)
  }

  /** The tables of one floor whose kinds `kf` gives. */
  function LaidOut(kf: nat -> seq<Kind>, level: nat): seq<LayoutTable> {
    Layout(FloorId(level), kf(level), 1)
  }

  function FloorTables(level: nat): seq<LayoutTable> {
    LaidOut(FloorKinds, level)
  }

  /** The tables of levels lo..hi-1, floor after floor. */
  function Levels(kf: nat -> seq<Kind>, lo: nat, hi: nat): seq<LayoutTable>
    decreases hi
  {
    if hi <= lo then [] else Levels(kf, lo, hi - 1) + LaidOut(kf, hi - 1)
  }

  function TablesOfLevels(lo: nat, hi: nat): seq<LayoutTable> {
    Levels(FloorKinds, lo, hi)
  }

  function FloorEntryFor(level: nat): FloorEntry {
    FloorEntry(FloorId(level), level, if level <= 4 then "group" else "quiet")
  }

  function FloorsOfLevels(lo: nat, hi: nat): (r: seq<FloorEntry>)
    ensures |r| == if hi <= lo then 0 else hi - lo
    decreases hi
  {
    if hi <= lo then [] else FloorsOfLevels(lo, hi - 1) + [FloorEntryFor(hi - 1)]
  }

  /** The `OUT` container: the library's id and name, and its `floors` and
      `tables` lists. */
  class Generator {
    const libraryId: string
    const name: string
    var floors: seq<FloorEntry>
    var tables: seq<LayoutTable>

    /** The `OUT` container before any builder runs. */
    constructor ()
      ensures libraryId == LibId && name == LibName
      ensures floors == [] && tables == []
    {
      libraryId := LibId;
      name := LibName;
      floors := [];
      tables := [];
    }

    /** `add_table`: appends one record and returns the next index. */
    method AddTable(floorId: string, idx: nat, kind: string, cap: int, tags: seq<string>) returns (next: nat)
      modifies this
      ensures tables == old(tables) + [LayoutTable(TableId(floorId, idx), floorId, kind, cap, tags)]
      ensures floors == old(floors) && next == idx + 1
    {
      tables := tables + [LayoutTable(floorId + "-T" + Pad2(idx), floorId, kind, cap, tags)];
      next := idx + 1;
    }

    /** One inner loop of a builder: `n` calls of `add_table` for the
        same kind, counting on from `idx`. */
    method AddRun(floorId: string, idx: nat, n: nat, k: Kind) returns (next: nat)
      modifies this
      ensures tables == old(tables) + Layout(floorId, Repeat(n, k), idx)
      ensures floors == old(floors) && next == idx + n
    {
      next := idx;
      ghost var kinds: seq<Kind> := [];
      for i := 0 to n
        invariant kinds == Repeat(i, k) && floors == old(floors)
        invariant next == idx + i && tables == old(tables) + Layout(floorId, kinds, idx)
      {
        LayoutSnoc(floorId, kinds, k, idx);
        next := AddTable(floorId, next, k.kind, k.capacity, k.tags);
        kinds := kinds + [k];
      }
    }

    /** The rooms loop of `build_lower_floors`: one room per entry of
        `room_cap`. */
    method AddRooms(floorId: string, idx: nat, roomCap: seq<int>) returns (next: nat)
      modifies this
      ensures tables == old(tables) + Layout(floorId, Rooms(roomCap), idx)
      ensures floors == old(floors) && next == idx + |roomCap|
    {
      next := idx;
      for i := 0 to |roomCap|
        invariant floors == old(floors)
        invariant next == idx + i && tables == old(tables) + Layout(floorId, Rooms(roomCap[..i]), idx)
      {
        LayoutSnoc(floorId, Rooms(roomCap[..i]), Room(roomCap[i]), idx);
        next := AddTable(floorId, next, "room", roomCap[i], ["group-room", "bookable"]);
        assert Rooms(roomCap[..i + 1]) == Rooms(roomCap[..i]) + [Room(roomCap[i])];
      }
      assert roomCap[..|roomCap|] == roomCap;
    }

    /** The inner loops of `build_lower_floors` for one configuration. */
    method AddLowerTables(floorId: string, cfg: LowerConfig)
      modifies this
      ensures floors == old(floors)
      ensures tables == old(tables) + Layout(floorId, LowerKinds(cfg), 1)
    {
      ghost var t0 := tables;
      ghost var l1 := Layout(floorId, Repeat(cfg.ind, Individual), 1);
      ghost var l2 := Layout(floorId, Repeat(cfg.duo, Duo), 1 + cfg.ind);
      ghost var l3 := Layout(floorId, Repeat(cfg.g4, Group), 1 + cfg.ind + cfg.duo);
      ghost var l4 := Layout(floorId, Rooms(cfg.roomCap), 1 + cfg.ind + cfg.duo + cfg.g4);
      var idx := 1;
      idx := AddRun(floorId, idx, cfg.ind, Individual);
      idx := AddRun(floorId, idx, cfg.duo, Duo);
      idx := AddRun(floorId, idx, cfg.g4, Group);
      idx := AddRooms(floorId, idx, cfg.roomCap);
      assert tables == t0 + l1 + l2 + l3 + l4;
      Assoc(t0, l1, l2);
      Assoc(t0, l1 + l2, l3);
      Assoc(t0, l1 + l2 + l3, l4);
      LowerLayoutParts(floorId, cfg);
    }

    /** The body of `build_lower_floors` for one level. */
    method BuildLowerFloor(level: nat)
      requires 1 <= level <= 4
      modifies this
      ensures floors == old(floors) + [FloorEntryFor(level)]
      ensures tables == old(tables) + FloorTables(level)
    {
      var floorId := FloorId(level);
      floors := floors + [FloorEntry(floorId, level, "group")];
      var cfg := LowerFloorLayout(level);
      AddLowerTables(floorId, cfg);
    }

    /** `build_lower_floors`. */
    method BuildLowerFloors()
      modifies this
      ensures floors == old(floors) + FloorsOfLevels(FirstFloor, FirstUpperFloor)
      ensures tables == old(tables) + TablesOfLevels(FirstFloor, FirstUpperFloor)
    {
      for level := FirstFloor to FirstUpperFloor
        invariant floors == old(floors) + FloorsOfLevels(1, level)
        invariant tables == old(tables) + TablesOfLevels(1, level)
      {
        ghost var t0, f0 := tables, floors;
        BuildLowerFloor(level);
        AppendFloor(old(tables), t0, old(floors), f0, 1, level);
      }
    }

    /** The body of `build_upper_floors` for one level. */
    method BuildUpperFloor(level: nat)
      requires 5 <= level
      modifies this
      ensures floors == old(floors) + [FloorEntryFor(level)]
      ensures tables == old(tables) + FloorTables(level)
    {
      var floorId := FloorId(level);
      floors := floors + [FloorEntry(floorId, level, "quiet")];
      var idx := 1;
      idx := AddRun(floorId, idx, UpperInd, QuietIndividual);
      idx := AddRun(floorId, idx, UpperDuo, QuietDuo);
      idx := AddRun(floorId, idx, UpperG4, QuietGroup);
      LayoutAppend(floorId, Repeat(UpperInd, QuietIndividual), Repeat(UpperDuo, QuietDuo), 1);
      LayoutAppend(floorId, Repeat(UpperInd, QuietIndividual) + Repeat(UpperDuo, QuietDuo), Repeat(UpperG4, QuietGroup), 1);
    }

    /** `build_upper_floors`. */
    method BuildUpperFloors()
      modifies this
      ensures floors == old(floors) + FloorsOfLevels(FirstUpperFloor, EndFloor)
      ensures tables == old(tables) + TablesOfLevels(FirstUpperFloor, EndFloor)
    {
      for level := FirstUpperFloor to EndFloor
        invariant floors == old(floors) + FloorsOfLevels(5, level)
        invariant tables == old(tables) + TablesOfLevels(5, level)
      {
        ghost var t0, f0 := tables, floors;
        BuildUpperFloor(level);
        AppendFloor(old(tables), t0, old(floors), f0, 5, level);
      }
    }
  }

  /** The two builders of `main`, run on a fresh container. */
  method Generate() returns (g: Generator)
    ensures fresh(g)
    ensures g.libraryId == LibId && g.name == LibName
    ensures g.floors == FloorsOfLevels(FirstFloor, EndFloor)
    ensures g.tables == TablesOfLevels(FirstFloor, EndFloor)
  {
    g := new Generator();
    g.BuildLowerFloors();
    assert g.tables == TablesOfLevels(FirstFloor, FirstUpperFloor);
    assert g.floors == FloorsOfLevels(FirstFloor, FirstUpperFloor);
    g.BuildUpperFloors();
    TablesSplit(FirstFloor, FirstUpperFloor, EndFloor);
    FloorsSplit(FirstFloor, FirstUpperFloor, EndFloor);
  }

  // ---------------------------------------------------------------------
  // Properties

  /** One more `add_table` call extends the layout by one table whose
      index is the next one. */
  lemma LayoutSnoc(floorId: string, kinds: seq<Kind>, k: Kind, start: nat)
    ensures Layout(floorId, kinds + [k], start) == Layout(floorId, kinds, start) + [MakeTable(floorId, start + |kinds|, k)]
  {
  }

  /** Two runs of `add_table` calls, the second counting on from where
      the first stopped, lay out the concatenated kinds. */
  lemma LayoutAppend(floorId: string, a: seq<Kind>, b: seq<Kind>, start: nat)
    ensures Layout(floorId, a + b, start) == Layout(floorId, a, start) + Layout(floorId, b, start + |a|)
  {
  }

  /** One more floor's entry and tables extend the levels built so far
      by one level. */
  lemma AppendFloor(base: seq<LayoutTable>, t0: seq<LayoutTable>, fbase: seq<FloorEntry>, f0: seq<FloorEntry>, lo: nat, level: nat)
    requires lo <= level
    requires t0 == base + TablesOfLevels(lo, level) && f0 == fbase + FloorsOfLevels(lo, level)
    ensures t0 + FloorTables(level) == base + TablesOfLevels(lo, level + 1)
    ensures f0 + [FloorEntryFor(level)] == fbase + FloorsOfLevels(lo, level + 1)
  {
    LevelsAppend(FloorKinds, base, t0, lo, level);
  }

  lemma LevelsAppend(kf: nat -> seq<Kind>, base: seq<LayoutTable>, t0: seq<LayoutTable>, lo: nat, level: nat)
    requires lo <= level && t0 == base + Levels(kf, lo, level)
    ensures t0 + LaidOut(kf, level) == base + Levels(kf, lo, level + 1)
  {
    Assoc(base, Levels(kf, lo, level), LaidOut(kf, level));
  }

  lemma Assoc<T>(a: seq<T>, b: seq<T>, c: seq<T>)
    ensures (a + b) + c == a + (b + c)
  {
  }

  /** The four runs of a lower floor, each counting on from the last. */
  lemma LowerLayoutParts(floorId: string, cfg: LowerConfig)
    ensures Layout(floorId, LowerKinds(cfg), 1) ==
      Layout(floorId, Repeat(cfg.ind, Individual), 1) + Layout(floorId, Repeat(cfg.duo, Duo), 1 + cfg.ind) +
      Layout(floorId, Repeat(cfg.g4, Group), 1 + cfg.ind + cfg.duo) +
      Layout(floorId, Rooms(cfg.roomCap), 1 + cfg.ind + cfg.duo + cfg.g4)
  {
    var a, b, c, d := Repeat(cfg.ind, Individual), Repeat(cfg.duo, Duo), Repeat(cfg.g4, Group), Rooms(cfg.roomCap);
    LayoutAppend(floorId, a, b, 1);
    LayoutAppend(floorId, a + b, c, 1);
    LayoutAppend(floorId, a + b + c, d, 1);
  }

  lemma {:induction false} LevelsSplit(kf: nat -> seq<Kind>, lo: nat, mid: nat, hi: nat)
    requires lo <= mid <= hi
    ensures Levels(kf, lo, mid) + Levels(kf, mid, hi) == Levels(kf, lo, hi)
    decreases hi
  {
    if hi == mid {
      assert Levels(kf, mid, hi) == [];
    } else {
      LevelsSplit(kf, lo, mid, hi - 1);
      Assoc(Levels(kf, lo, mid), Levels(kf, mid, hi - 1), LaidOut(kf, hi - 1));
    }
  }

  /** Levels lo..mid-1 followed by mid..hi-1 are levels lo..hi-1. */
  lemma TablesSplit(lo: nat, mid: nat, hi: nat)
    requires lo <= mid <= hi
    ensures TablesOfLevels(lo, mid) + TablesOfLevels(mid, hi) == TablesOfLevels(lo, hi)
  {
    LevelsSplit(FloorKinds, lo, mid, hi);
  }

  lemma {:induction false} FloorsSplit(lo: nat, mid: nat, hi: nat)
    requires lo <= mid <= hi
    ensures FloorsOfLevels(lo, mid) + FloorsOfLevels(mid, hi) == FloorsOfLevels(lo, hi)
    decreases hi
  {
    if hi == mid {
      assert FloorsOfLevels(mid, hi) == [];
    } else {
      FloorsSplit(lo, mid, hi - 1);
    }
  }

  // --- floors

  lemma {:induction false} FloorsAt(lo: nat, hi: nat)
    requires lo <= hi
    ensures forall i :: 0 <= i < hi - lo ==> FloorsOfLevels(lo, hi)[i] == FloorEntryFor(lo + i)
    decreases hi
  {
    if lo < hi {
      FloorsAt(lo, hi - 1);
    }
  }

  /** `main` writes eleven floors F1..F11, each once, F1..F4 with the
      "group" layout and F5..F11 with the "quiet" one. */
  lemma GeneratedFloors()
    ensures var fs := FloorsOfLevels(FirstFloor, EndFloor);
      |fs| == 11 &&
      (forall i :: 0 <= i < 11 ==>
        fs[i].floorId == FloorId(i + 1) && fs[i].level == i + 1 &&
        fs[i].layout == (if i < 4 then "group" else "quiet")) &&
      (forall i, j :: 0 <= i < j < 11 ==> fs[i].floorId != fs[j].floorId)
  {
    FloorsAt(FirstFloor, EndFloor);
    forall i, j | 0 <= i < j < 11
      ensures FloorsOfLevels(FirstFloor, EndFloor)[i].floorId != FloorsOfLevels(FirstFloor, EndFloor)[j].floorId
    {
      if FloorId(i + 1) == FloorId(j + 1) {
        FloorIdInjective(i + 1, j + 1);
      }
    }
  }

  // --- the tables of one floor

  /** The tables of one lower floor, in the order the builder adds them:
      individual desks, then duos, then groups of four, then one room per
      entry of the floor's room capacities; the k-th table of the floor
      has index k + 1. */
  lemma LowerFloorOrder(level: nat)
    requires 1 <= level <= 4
    ensures var cfg, ts := LowerFloorLayout(level), FloorTables(level);
      var n1, n2, n3 := cfg.ind, cfg.ind + cfg.duo, cfg.ind + cfg.duo + cfg.g4;
      |ts| == n3 + |cfg.roomCap| &&
      forall j :: 0 <= j < |ts| ==>
        ts[j].tableId == TableId(FloorId(level), j + 1) && ts[j].floorId == FloorId(level) &&
        (j < n1 ==> ts[j].kind == "individual" && ts[j].capacity == 1 && ts[j].tags == ["open"]) &&
        (n1 <= j < n2 ==> ts[j].kind == "duo" && ts[j].capacity == 2 && ts[j].tags == ["open"]) &&
        (n2 <= j < n3 ==> ts[j].kind == "group" && ts[j].capacity == 4 && ts[j].tags == ["group"]) &&
        (n3 <= j ==>
          ts[j].kind == "room" && ts[j].capacity == cfg.roomCap[j - n3] && ts[j].tags == ["group-room", "bookable"])
  {
  }

  /** The tables of one upper floor: 20 quiet desks, 10 quiet duos, then
      3 quiet groups of four. */
  lemma UpperFloorOrder(level: nat)
    requires level >= 5
    ensures var ts := FloorTables(level);
      |ts| == 33 &&
      forall j :: 0 <= j < 33 ==>
        ts[j].tableId == TableId(FloorId(level), j + 1) && ts[j].floorId == FloorId(level) &&
        (j < 20 ==> ts[j].kind == "individual" && ts[j].capacity == 1 && ts[j].tags == ["quiet", "solo"]) &&
        (20 <= j < 30 ==> ts[j].kind == "duo" && ts[j].capacity == 2 && ts[j].tags == ["quiet"]) &&
        (30 <= j ==> ts[j].kind == "group" && ts[j].capacity == 4 && ts[j].tags == ["quiet-group"])
  {
  }

  /** Table counts per floor: 47, 46, 48 and 43 on F1..F4, 33 above. */
  lemma FloorCounts()
    ensures |FloorTables(1)| == 47 && |FloorTables(2)| == 46
    ensures |FloorTables(3)| == 48 && |FloorTables(4)| == 43
    ensures forall level :: level >= 5 ==> |FloorTables(level)| == 33
  {
  }

  /** 415 tables in all. */
  lemma {:induction false} TotalTables()
    ensures |TablesOfLevels(FirstFloor, EndFloor)| == 415
  {
    FloorCounts();
    assert |TablesOfLevels(1, 5)| == 184 by {
      assert |TablesOfLevels(1, 2)| == 47;
      assert |TablesOfLevels(1, 3)| == 93;
      assert |TablesOfLevels(1, 4)| == 141;
    }
    SevenUpperFloors(FirstUpperFloor, EndFloor);
    TablesSplit(FirstFloor, FirstUpperFloor, EndFloor);
  }

  lemma {:induction false} SevenUpperFloors(lo: nat, hi: nat)
    requires 5 <= lo <= hi
    ensures |TablesOfLevels(lo, hi)| == 33 * (hi - lo)
    decreases hi
  {
    if lo < hi {
      SevenUpperFloors(lo, hi - 1);
      FloorCounts();
    }
  }

  // --- seat capacity

  function Sum(xs: seq<int>): int {
    if xs == [] then 0 else Sum(xs[..|xs| - 1]) + xs[|xs| - 1]
  }

  /** The seats that a list of `add_table` requests asks for, in order. */
  function KindSeats(ks: seq<Kind>): (r: seq<int>)
    ensures |r| == |ks|
  {
    seq(|ks|, i requires 0 <= i < |ks| => ks[i].capacity)
  }

  /** The seats of a floor's tables, added up. */
  function Capacity(ts: seq<LayoutTable>): int {
    Sum(seq(|ts|, i requires 0 <= i < |ts| => ts[i].capacity))
  }

  lemma {:induction false} SumAppend(a: seq<int>, b: seq<int>)
    ensures Sum(a + b) == Sum(a) + Sum(b)
    decreases |b|
  {
    if b == [] {
      assert a + b == a;
    } else {
      SumAppend(a, b[..|b| - 1]);
      assert (a + b)[..|a + b| - 1] == a + b[..|b| - 1];
    }
  }

  lemma {:induction false} SumRepeat(n: nat, c: int)
    ensures Sum(seq(n, _ => c)) == n * c
  {
    if n > 0 {
      SumRepeat(n - 1, c);
      assert seq(n, _ => c)[..n - 1] == seq(n - 1, _ => c);
    }
  }

  /** Laying out tables keeps each requested capacity. */
  lemma LayoutCapacity(floorId: string, ks: seq<Kind>, start: nat)
    ensures Capacity(Layout(floorId, ks, start)) == Sum(KindSeats(ks))
  {
    var l := Layout(floorId, ks, start);
    assert seq(|l|, i requires 0 <= i < |l| => l[i].capacity) == KindSeats(ks);
  }

  /** A lower-floor configuration seats ind + 2 duo + 4 g4 plus its
      rooms' capacities. */
  lemma LowerCapacity(floorId: string, cfg: LowerConfig)
    ensures Capacity(Layout(floorId, LowerKinds(cfg), 1)) == cfg.ind + 2 * cfg.duo + 4 * cfg.g4 + Sum(cfg.roomCap)
  {
    var a, b, c, d := Repeat(cfg.ind, Individual), Repeat(cfg.duo, Duo), Repeat(cfg.g4, Group), Rooms(cfg.roomCap);
    LayoutCapacity(floorId, a + b + c + d, 1);
    var sa, sb, sc := seq(cfg.ind, _ => 1), seq(cfg.duo, _ => 2), seq(cfg.g4, _ => 4);
    assert KindSeats(a + b + c + d) == sa + sb + sc + cfg.roomCap;
    SumAppend(sa + sb + sc, cfg.roomCap);
    SumAppend(sa + sb, sc);
    SumAppend(sa, sb);
    SumRepeat(cfg.ind, 1);
    SumRepeat(cfg.duo, 2);
    SumRepeat(cfg.g4, 4);
  }

  lemma RoomSums()
    ensures Sum([6, 8]) == 14 && Sum([8]) == 8
  {
    assert [6, 8][..1] == [6];
  }

  /** F1..F4 seat 99, 100, 100 and 92 people. */
  lemma LowerFloorCapacity(level: nat)
    requires 1 <= level <= 4
    ensures Capacity(FloorTables(level)) == if level == 1 then 99 else if level == 4 then 92 else 100
  {
    RoomSums();
    LowerCapacity(FloorId(level), LowerFloorLayout(level));
  }

  /** An upper floor seats 20 * 1 + 10 * 2 + 3 * 4 = 52 people. */
  lemma UpperFloorCapacity(level: nat)
    requires level >= 5
    ensures Capacity(FloorTables(level)) == 52
  {
    var a, b, c := Repeat(UpperInd, QuietIndividual), Repeat(UpperDuo, QuietDuo), Repeat(UpperG4, QuietGroup);
    LayoutCapacity(FloorId(level), a + b + c, 1);
    var sa, sb, sc := seq(UpperInd, _ => 1), seq(UpperDuo, _ => 2), seq(UpperG4, _ => 4);
    assert KindSeats(a + b + c) == sa + sb + sc;
    SumAppend(sa + sb, sc);
    SumAppend(sa, sb);
    SumRepeat(UpperInd, 1);
    SumRepeat(UpperDuo, 2);
    SumRepeat(UpperG4, 4);
  }

  // --- table ids

  /** Below 100 the padded index has two characters, so a table id
      determines both its floor id and its index. */
  lemma TableIdParts(f1: string, i1: nat, f2: string, i2: nat)
    requires i1 < 100 && i2 < 100
    requires TableId(f1, i1) == TableId(f2, i2)
    ensures f1 == f2 && i1 == i2
  {
    var t := TableId(f1, i1);
    assert |f1| == |f2|;
    assert f1 == t[..|f1|] == f2;
    assert Pad2(i1) == t[|f1| + 2..] == Pad2(i2);
    Pad2Injective(i1, i2);
  }

  predicate IdsDistinct(ts: seq<LayoutTable>) {
    forall p, q :: 0 <= p < q < |ts| ==> ts[p].tableId != ts[q].tableId
  }

  /** Every table laid out from index `start` is named after its floor
      with its own index. */
  lemma LayoutIds(floorId: string, ks: seq<Kind>, start: nat)
    ensures forall j :: 0 <= j < |ks| ==>
      Layout(floorId, ks, start)[j].tableId == TableId(floorId, start + j) &&
      Layout(floorId, ks, start)[j].floorId == floorId
  {
  }

  /** No floor has more than 48 tables, so every index stays below 100. */
  lemma FloorSmall(level: nat)
    ensures |FloorTables(level)| <= 48
  {
    FloorCounts();
  }

  predicate NamedIn(t: LayoutTable, lo: nat, hi: nat) {
    exists l: nat, i: nat :: lo <= l < hi && i < 100 && t.floorId == FloorId(l) && t.tableId == TableId(FloorId(l), i)
  }

  /** A floor laid out with fewer than 99 tables after tables already
      named after levels lo..l-1 keeps every table named after levels
      lo..l. */
  lemma AppendLayoutNamed(xs: seq<LayoutTable>, lo: nat, l: nat, ks: seq<Kind>)
    requires lo <= l && |ks| < 99
    requires forall t :: t in xs ==> NamedIn(t, lo, l)
    ensures forall t :: t in xs + Layout(FloorId(l), ks, 1) ==> NamedIn(t, lo, l + 1)
  {
    var ys := Layout(FloorId(l), ks, 1);
    forall t | t in xs + ys
      ensures NamedIn(t, lo, l + 1)
    {
      if t in xs {
        assert NamedIn(t, lo, l);
      } else {
        var j :| 0 <= j < |ys| && ys[j] == t;
        assert t.tableId == TableId(FloorId(l), 1 + j);
      }
    }
  }

  /** Within one floor the indices, and so the ids, differ. */
  lemma LayoutIdsDistinct(l: nat, ks: seq<Kind>)
    requires |ks| < 99
    ensures IdsDistinct(Layout(FloorId(l), ks, 1))
  {
    var ys := Layout(FloorId(l), ks, 1);
    forall p, q | 0 <= p < q < |ys|
      ensures ys[p].tableId != ys[q].tableId
    {
      if ys[p].tableId == ys[q].tableId {
        TableIdParts(FloorId(l), 1 + p, FloorId(l), 1 + q);
      }
    }
  }

  /** A table named after a lower level never has the id of one on
      level l. */
  lemma NamedElsewhere(t: LayoutTable, lo: nat, l: nat, j: nat)
    requires NamedIn(t, lo, l) && j < 100
    ensures t.tableId != TableId(FloorId(l), j)
  {
    var m: nat, i: nat :| lo <= m < l && i < 100 && t.floorId == FloorId(m) && t.tableId == TableId(FloorId(m), i);
    if t.tableId == TableId(FloorId(l), j) {
      TableIdParts(FloorId(m), i, FloorId(l), j);
      FloorIdInjective(m, l);
    }
  }

  /** ... and adds no id that is already taken. */
  lemma AppendLayoutDistinct(xs: seq<LayoutTable>, lo: nat, l: nat, ks: seq<Kind>)
    requires lo <= l && |ks| < 99
    requires IdsDistinct(xs)
    requires forall t :: t in xs ==> NamedIn(t, lo, l)
    ensures IdsDistinct(xs + Layout(FloorId(l), ks, 1))
  {
    var ys := Layout(FloorId(l), ks, 1);
    var ts := xs + ys;
    LayoutIdsDistinct(l, ks);
    forall p, q | 0 <= p < q < |ts|
      ensures ts[p].tableId != ts[q].tableId
    {
      if p < |xs| <= q {
        assert ts[p] == xs[p] && ts[q] == ys[q - |xs|];
        NamedElsewhere(xs[p], lo, l, 1 + (q - |xs|));
      } else if q < |xs| {
        assert ts[p] == xs[p] && ts[q] == xs[q];
      } else {
        assert ts[p] == ys[p - |xs|] && ts[q] == ys[q - |xs|];
      }
    }
  }

  /** When no floor of levels lo..hi-1 has 99 tables or more, every
      table is named after one of those floors, with an index below 100,
      and no two share an id. */
  lemma {:induction false} LevelsIdsDistinct(kf: nat -> seq<Kind>, lo: nat, hi: nat)
    requires forall l :: lo <= l < hi ==> |kf(l)| < 99
    ensures IdsDistinct(Levels(kf, lo, hi))
    ensures forall t :: t in Levels(kf, lo, hi) ==> NamedIn(t, lo, hi)
    decreases hi
  {
    if lo < hi {
      LevelsIdsDistinct(kf, lo, hi - 1);
      AppendLayoutNamed(Levels(kf, lo, hi - 1), lo, hi - 1, kf(hi - 1));
      AppendLayoutDistinct(Levels(kf, lo, hi - 1), lo, hi - 1, kf(hi - 1));
    }
  }

  /** The generated tableIds are unique across the whole library. */
  lemma GeneratedIdsDistinct()
    ensures IdsDistinct(TablesOfLevels(FirstFloor, EndFloor))
  {
    forall l | FirstFloor <= l < EndFloor
      ensures |FloorKinds(l)| < 99
    {
      FloorSmall(l);
    }
    LevelsIdsDistinct(FloorKinds, FirstFloor, EndFloor);
  }
}
