/** The seat hold / confirm / release routes of the library API
    (app/main.py). Each route is a method over the two stores; each is
    proved equal to a step function on the stores' contents, and the
    lemmas state the state machine that those step functions implement. */
module AppMain {
  import opened Wrappers
  import opened StoreDynamo

  /** The lifetime `hold_seat` gives every hold record, whatever was asked. */
  const HoldTtlSec: int := 120
  /** The `expiresIn` that `hold_seat` reports, whatever was stored. */
  const ReportedExpiresIn: int := 420

  const BadRequest: int := 400
  const NotFound: int := 404
  const Conflict: int := 409
  const Gone: int := 410
  /** An uncaught `IndexError` (a seat index below `capacity` but past the
      end of `seats`) surfaces as an internal server error. */
  const ServerError: int := 500

  datatype HoldRequest = HoldRequest(tableId: string, seatIndex: int, ttlSec: int)

  datatype ConfirmRequest = ConfirmRequest(
    holdId: string, courseCodes: seq<string>, topicTags: seq<string>, isOpenToJoin: bool)

  /** A route's JSON reply, or the HTTP status of the exception it raised. */
  datatype Reply =
    | Held(holdId: string, expiresIn: int)
    | Confirmed(tableId: string, seatIndex: int)
    | Ok
    | Error(status: int)

  /** A route's reply together with the stores after it. */
  datatype Step = Step(reply: Reply, after: Stores)

  /** `hold_seat`. */
  function HoldStep(s: Stores, req: HoldRequest, now: int, freshId: string): Step {
    if req.tableId !in s.tables then Step(Error(NotFound), s)
    else
      var tab := s.tables[req.tableId];
      var idx := req.seatIndex;
      if idx < 0 || idx >= tab.capacity then Step(Error(BadRequest), s)
      else if idx >= |tab.seats| then Step(Error(ServerError), s)
      else if tab.seats[idx].status != FREE then Step(Error(Conflict), s)
      else Step(Held(freshId, ReportedExpiresIn),
                Stores(PutTable(s.tables, SetStatus(tab, idx, HELD)),
                       s.holds[freshId := NewHold(freshId, req.tableId, idx, now, HoldTtlSec)]))
  }

  /** `confirm_seat`. */
  function ConfirmStep(s: Stores, req: ConfirmRequest): Step {
    if req.holdId !in s.holds then Step(Error(Gone), s)
    else
      var hold := s.holds[req.holdId];
      if hold.tableId !in s.tables then Step(Error(NotFound), s)
      else
        var tab := s.tables[hold.tableId];
        var idx := hold.seatIndex;
        if idx < 0 || idx >= |tab.seats| then Step(Error(BadRequest), s)
        else if tab.seats[idx].status == OCCUPIED then Step(Error(Conflict), s)
        else
          var tab' := SetStatus(tab, idx, OCCUPIED).(isOpenToJoin := req.isOpenToJoin);
          Step(Confirmed(tab.tableId, idx), Stores(PutTable(s.tables, tab'), s.holds - {req.holdId}))
  }

  /** `release_seat`. */
  function ReleaseStep(s: Stores, tableId: string, seatIndex: int): Step {
    if tableId !in s.tables then Step(Error(NotFound), s)
    else
      var tab := s.tables[tableId];
      if seatIndex < 0 || seatIndex >= tab.capacity then Step(Error(BadRequest), s)
      else if seatIndex >= |tab.seats| then Step(Error(ServerError), s)
      else Step(Ok, Stores(PutTable(s.tables, SetStatus(tab, seatIndex, FREE)), s.holds))
  }

  // ---------------------------------------------------------------------
  // The routes

  /** GET /health: one sweep of expired holds at `now`, then ok. */
  method Health(db: Store, now: int) returns (reply: Reply)
    requires db.Valid()
    modifies db
    ensures db.Valid()
    ensures reply == Ok && db.Contents() == Sweep(old(db.Contents()), now)
  {
    db.ExpireHolds(now);
    reply := Ok;
  }

  /** GET /health as written: the sweep's `TypeError` on a `Decimal` seat
      index is not caught and the route answers 500; whatever the sweep
      did before it raised stays done. */
  method HealthAsWritten(db: Store, now: int) returns (reply: Reply)
    requires db.Valid()
    modifies db
    ensures db.Valid()
    ensures reply == (if SweepRaises(old(db.Contents()), now) then Error(ServerError) else Ok)
    ensures db.tables == old(db.tables)
    ensures !SweepRaises(old(db.Contents()), now) ==> db.holds == Sweep(old(db.Contents()), now).holds
  {
    var raised := db.ExpireHoldsAsWritten(now);
    SweepHolds(old(db.Contents()), now);
    reply := if raised then Error(ServerError) else Ok;
  }

  /** POST /hold. */
  method HoldSeat(db: Store, req: HoldRequest, now: int, freshId: string) returns (reply: Reply)
    requires db.Valid()
    modifies db
    ensures db.Valid()
    ensures HoldStep(old(db.Contents()), req, now, freshId) == Step(reply, db.Contents())
  {
    var tab := db.GetTable(req.tableId);
    if tab.None? {
      return Error(NotFound);
    }
    var t := tab.value;
    if req.seatIndex < 0 || req.seatIndex >= t.capacity {
      return Error(BadRequest);
    }
    if req.seatIndex >= |t.seats| {
      return Error(ServerError);
    }
    if t.seats[req.seatIndex].status != FREE {
      return Error(Conflict);
    }
    db.SaveTable(SetStatus(t, req.seatIndex, HELD));
    var holdId := db.CreateHold(req.tableId, req.seatIndex, HoldTtlSec, now, freshId);
    reply := Held(holdId, ReportedExpiresIn);
  }

  /** POST /confirm. */
  method ConfirmSeat(db: Store, req: ConfirmRequest) returns (reply: Reply)
    requires db.Valid()
    modifies db
    ensures db.Valid()
    ensures ConfirmStep(old(db.Contents()), req) == Step(reply, db.Contents())
  {
    var hold := db.GetHold(req.holdId);
    if hold.None? {
      return Error(Gone);
    }
    var tab := db.GetTable(hold.value.tableId);
    if tab.None? {
      return Error(NotFound);
    }
    var t := tab.value;
    var idx := hold.value.seatIndex;
    if idx < 0 || idx >= |t.seats| {
      return Error(BadRequest);
    }
    if t.seats[idx].status == OCCUPIED {
      return Error(Conflict);
    }
    t := SetStatus(t, idx, OCCUPIED).(isOpenToJoin := req.isOpenToJoin);
    db.SaveTable(t);
    db.DeleteHold(req.holdId);
    reply := Confirmed(t.tableId, idx);
  }

  /** POST /release/{table_id}/{seat_index}. */
  method ReleaseSeat(db: Store, tableId: string, seatIndex: int) returns (reply: Reply)
    requires db.Valid()
    modifies db
    ensures db.Valid()
    ensures ReleaseStep(old(db.Contents()), tableId, seatIndex) == Step(reply, db.Contents())
  {
    var tab := db.GetTable(tableId);
    if tab.None? {
      return Error(NotFound);
    }
    var t := tab.value;
    if seatIndex < 0 || seatIndex >= t.capacity {
      return Error(BadRequest);
    }
    if seatIndex >= |t.seats| {
      return Error(ServerError);
    }
    db.SaveTable(SetStatus(t, seatIndex, FREE));
    reply := Ok;
  }

  // ---------------------------------------------------------------------
  // The state machine

  /** Seat `i` of table `k` is the only seat that differs between `a` and
      `b`, and no other table or table field differs. */
  ghost predicate OnlySeatChanged(a: map<string, Table>, b: map<string, Table>, k: string, i: int) {
    && a.Keys == b.Keys
    && k in a
    && (forall k' :: k' in a && k' != k ==> b[k'] == a[k'])
    && |b[k].seats| == |a[k].seats|
    && b[k].(seats := a[k].seats) == a[k]
    && (forall j :: 0 <= j < |a[k].seats| && j != i ==> b[k].seats[j] == a[k].seats[j])
  }

  /** A hold on an existing FREE seat turns that seat (and nothing else)
      HELD and adds one hold record expiring 120 s from now, whatever ttl
      was requested; the reply names the new hold and claims 420 s. */
  lemma HoldOnFreeSeat(s: Stores, req: HoldRequest, now: int, freshId: string)
    requires Wf(s)
    requires req.tableId in s.tables
    requires 0 <= req.seatIndex < s.tables[req.tableId].capacity
    requires req.seatIndex < |s.tables[req.tableId].seats|
    requires s.tables[req.tableId].seats[req.seatIndex].status == FREE
    ensures var r := HoldStep(s, req, now, freshId);
      && r.reply == Held(freshId, 420)
      && OnlySeatChanged(s.tables, r.after.tables, req.tableId, req.seatIndex)
      && r.after.tables[req.tableId].seats[req.seatIndex]
         == s.tables[req.tableId].seats[req.seatIndex].(status := HELD)
      && r.after.holds.Keys == s.holds.Keys + {freshId}
      && r.after.holds[freshId] == HoldRecord(freshId, req.tableId, req.seatIndex, Some(now + 120))
      && (forall h :: h in s.holds && h != freshId ==> r.after.holds[h] == s.holds[h])
      && (freshId !in s.holds ==> |r.after.holds| == |s.holds| + 1)
  {
  }

  /** A hold fails, changing nothing, exactly when the table is unknown
      (404), the index is outside [0, capacity) (400), the index is past the
      stored seats (500) or the seat is not FREE (409). */
  lemma HoldRejects(s: Stores, req: HoldRequest, now: int, freshId: string)
    ensures var r := HoldStep(s, req, now, freshId);
      && (r.reply.Error? <==>
           || req.tableId !in s.tables
           || !(0 <= req.seatIndex < s.tables[req.tableId].capacity)
           || req.seatIndex >= |s.tables[req.tableId].seats|
           || s.tables[req.tableId].seats[req.seatIndex].status != FREE)
      && (r.reply.Error? ==> r.after == s)
      && (req.tableId !in s.tables ==> r.reply == Error(404))
      && (req.tableId in s.tables && !(0 <= req.seatIndex < s.tables[req.tableId].capacity) ==>
            r.reply == Error(400))
      && (req.tableId in s.tables && 0 <= req.seatIndex < s.tables[req.tableId].capacity
            && req.seatIndex >= |s.tables[req.tableId].seats| ==>
            r.reply == Error(500))
      && (req.tableId in s.tables && 0 <= req.seatIndex < s.tables[req.tableId].capacity
            && req.seatIndex < |s.tables[req.tableId].seats|
            && s.tables[req.tableId].seats[req.seatIndex].status != FREE ==>
            r.reply == Error(409))
  {
  }

  /** The requested ttl has no effect at all. */
  lemma HoldIgnoresTtl(s: Stores, req: HoldRequest, ttl: int, now: int, freshId: string)
    ensures HoldStep(s, req.(ttlSec := ttl), now, freshId) == HoldStep(s, req, now, freshId)
  {
  }

  /** An unknown hold id is refused with 410 and nothing changes. */
  lemma ConfirmUnknownHold(s: Stores, req: ConfirmRequest)
    requires req.holdId !in s.holds
    ensures ConfirmStep(s, req) == Step(Error(410), s)
  {
  }

  /** A confirm whose hold points at an existing seat that is not OCCUPIED
      succeeds, whatever the hold's expiry and whether or not the seat is
      HELD: that seat becomes OCCUPIED, the table's `isOpenToJoin` takes the
      request's value, exactly that hold record is deleted, and nothing else
      changes. */
  lemma ConfirmSucceeds(s: Stores, req: ConfirmRequest)
    requires Wf(s)
    requires req.holdId in s.holds
    requires var h := s.holds[req.holdId];
      && h.tableId in s.tables
      && 0 <= h.seatIndex < |s.tables[h.tableId].seats|
      && s.tables[h.tableId].seats[h.seatIndex].status != OCCUPIED
    ensures var h := s.holds[req.holdId];
      var r := ConfirmStep(s, req);
      && r.reply == Confirmed(h.tableId, h.seatIndex)
      && r.after.tables.Keys == s.tables.Keys
      && (forall k :: k in s.tables && k != h.tableId ==> r.after.tables[k] == s.tables[k])
      && r.after.tables[h.tableId]
         == SetStatus(s.tables[h.tableId], h.seatIndex, OCCUPIED).(isOpenToJoin := req.isOpenToJoin)
      && r.after.holds == s.holds - {req.holdId}
  {
  }

  /** The refusals of confirm after the hold was found: unknown table (404),
      stored index outside the seats (400), seat already OCCUPIED (409);
      in each case the hold record and the table are left as they were. */
  lemma ConfirmRejects(s: Stores, req: ConfirmRequest)
    requires req.holdId in s.holds
    ensures var h := s.holds[req.holdId];
      var r := ConfirmStep(s, req);
      && (h.tableId !in s.tables ==> r == Step(Error(404), s))
      && (h.tableId in s.tables && !(0 <= h.seatIndex < |s.tables[h.tableId].seats|) ==>
            r == Step(Error(400), s))
      && (h.tableId in s.tables && 0 <= h.seatIndex < |s.tables[h.tableId].seats|
            && s.tables[h.tableId].seats[h.seatIndex].status == OCCUPIED ==>
            r == Step(Error(409), s))
  {
  }

  /** The request's `courseCodes` and `topicTags` are never stored. */
  lemma ConfirmIgnoresMetadata(s: Stores, req: ConfirmRequest, courses: seq<string>, topics: seq<string>)
    ensures ConfirmStep(s, req.(courseCodes := courses, topicTags := topics)) == ConfirmStep(s, req)
  {
  }

  /** Release on an existing index forces the seat FREE whatever it was,
      touches no other seat, field or table, and never touches the holds;
      it fails with 404 on an unknown table, 400 outside [0, capacity) and
      500 (the uncaught `IndexError`, before anything is saved) on an index
      inside the capacity but past the stored seats. */
  lemma ReleaseFrees(s: Stores, tableId: string, seatIndex: int)
    requires Wf(s)
    ensures var r := ReleaseStep(s, tableId, seatIndex);
      && r.after.holds == s.holds
      && (tableId !in s.tables ==> r == Step(Error(404), s))
      && (tableId in s.tables && !(0 <= seatIndex < s.tables[tableId].capacity) ==> r == Step(Error(400), s))
      && (tableId in s.tables && 0 <= seatIndex < s.tables[tableId].capacity && seatIndex >= |s.tables[tableId].seats| ==>
            r == Step(Error(500), s))
      && (tableId in s.tables && 0 <= seatIndex < s.tables[tableId].capacity && seatIndex < |s.tables[tableId].seats| ==>
            && r.reply == Ok
            && OnlySeatChanged(s.tables, r.after.tables, tableId, seatIndex)
            && r.after.tables[tableId].seats[seatIndex] == s.tables[tableId].seats[seatIndex].(status := FREE))
  {
  }

  /** Releasing twice gives the same reply and the same stores as
      releasing once. */
  lemma ReleaseIdempotent(s: Stores, tableId: string, seatIndex: int)
    requires Wf(s)
    ensures var r := ReleaseStep(s, tableId, seatIndex);
      ReleaseStep(r.after, tableId, seatIndex) == r
  {
    var r := ReleaseStep(s, tableId, seatIndex);
    if tableId in s.tables && 0 <= seatIndex < s.tables[tableId].capacity && seatIndex < |s.tables[tableId].seats| {
      var t := SetStatus(s.tables[tableId], seatIndex, FREE);
      assert r.after.tables[tableId] == t;
      assert SetStatus(t, seatIndex, FREE) == t;
    }
  }

  /** Every route keeps each record under its own key. */
  lemma StepsKeepWf(s: Stores, hreq: HoldRequest, creq: ConfirmRequest, tableId: string, seatIndex: int,
                    now: int, freshId: string)
    requires Wf(s)
    ensures Wf(HoldStep(s, hreq, now, freshId).after)
    ensures Wf(ConfirmStep(s, creq).after)
    ensures Wf(ReleaseStep(s, tableId, seatIndex).after)
  {
    HoldKeepsWf(s, hreq, now, freshId);
    ConfirmKeepsWf(s, creq);
    ReleaseKeepsWf(s, tableId, seatIndex);
  }

  lemma HoldKeepsWf(s: Stores, req: HoldRequest, now: int, freshId: string)
    requires Wf(s)
    ensures Wf(HoldStep(s, req, now, freshId).after)
  {
  }

  lemma ConfirmKeepsWf(s: Stores, req: ConfirmRequest)
    requires Wf(s)
    ensures Wf(ConfirmStep(s, req).after)
  {
  }

  lemma ReleaseKeepsWf(s: Stores, tableId: string, seatIndex: int)
    requires Wf(s)
    ensures Wf(ReleaseStep(s, tableId, seatIndex).after)
  {
  }

  // ---------------------------------------------------------------------
  // Scenarios

  /** Hold then confirm on a FREE seat, with a hold id not yet in use: the
      seat ends OCCUPIED and the holds are back to what they were. */
  lemma HoldThenConfirm(s: Stores, req: HoldRequest, now: int, freshId: string, open: bool)
    requires Wf(s) && freshId !in s.holds
    requires req.tableId in s.tables
    requires 0 <= req.seatIndex < s.tables[req.tableId].capacity
    requires req.seatIndex < |s.tables[req.tableId].seats|
    requires s.tables[req.tableId].seats[req.seatIndex].status == FREE
    ensures var s1 := HoldStep(s, req, now, freshId).after;
      var r := ConfirmStep(s1, ConfirmRequest(freshId, [], [], open));
      && r.reply == Confirmed(req.tableId, req.seatIndex)
      && r.after.tables[req.tableId].seats[req.seatIndex].status == OCCUPIED
      && r.after.tables[req.tableId].isOpenToJoin == open
      && r.after.holds == s.holds
  {
    var s1 := HoldStep(s, req, now, freshId).after;
    assert s1.holds[freshId].tableId == req.tableId;
    assert s1.holds - {freshId} == s.holds;
  }

  /** Hold, then a health-check sweep more than 120 s later: the seat is
      FREE again and the hold id is refused with 410 afterwards. */
  lemma HoldThenExpire(s: Stores, req: HoldRequest, now: int, later: int, freshId: string)
    requires Wf(s)
    requires req.tableId in s.tables
    requires 0 <= req.seatIndex < s.tables[req.tableId].capacity
    requires req.seatIndex < |s.tables[req.tableId].seats|
    requires s.tables[req.tableId].seats[req.seatIndex].status == FREE
    requires later > now + 120
    ensures var s2 := Sweep(HoldStep(s, req, now, freshId).after, later);
      && s2.tables[req.tableId].seats[req.seatIndex].status == FREE
      && ConfirmStep(s2, ConfirmRequest(freshId, [], [], true)) == Step(Error(410), s2)
  {
    var s1 := HoldStep(s, req, now, freshId).after;
    assert IsExpired(s1.holds[freshId], later);
    SweepSeat(s1, later, req.tableId, req.seatIndex);
  }

  /** The same hold and late sweep against the code as written: the expired
      hold points at an existing seat, so `/health` raises and answers 500
      and the seat stays HELD, where the intended sweep frees it. */
  lemma ExpiredHoldBreaksHealth(s: Stores, req: HoldRequest, now: int, later: int, freshId: string)
    requires Wf(s)
    requires req.tableId in s.tables
    requires 0 <= req.seatIndex < s.tables[req.tableId].capacity
    requires req.seatIndex < |s.tables[req.tableId].seats|
    requires s.tables[req.tableId].seats[req.seatIndex].status == FREE
    requires later > now + 120
    ensures var s1 := HoldStep(s, req, now, freshId).after;
      && SweepRaises(s1, later)
      && s1.tables[req.tableId].seats[req.seatIndex].status == HELD
      && Sweep(s1, later).tables[req.tableId].seats[req.seatIndex].status == FREE
  {
    var s1 := HoldStep(s, req, now, freshId).after;
    HoldOnFreeSeat(s, req, now, freshId);
    assert IsExpired(s1.holds[freshId], later) && IndexesSeat(s1.tables, s1.holds[freshId]);
    HoldThenExpire(s, req, now, later, freshId);
  }

  /** No hold record points at seat `i` of table `k`. */
  ghost predicate Unreferenced(holds: map<string, HoldRecord>, k: string, i: int) {
    forall h :: h in holds ==> !(holds[h].tableId == k && holds[h].seatIndex == i)
  }

  /** A sweep at or before the expiry instant keeps the hold and its seat
      HELD, provided no older hold record points at the same seat; the hold
      can then still be confirmed. */
  lemma HoldSurvivesEarlySweep(s: Stores, req: HoldRequest, now: int, later: int, freshId: string)
    requires Wf(s)
    requires req.tableId in s.tables
    requires 0 <= req.seatIndex < s.tables[req.tableId].capacity
    requires req.seatIndex < |s.tables[req.tableId].seats|
    requires s.tables[req.tableId].seats[req.seatIndex].status == FREE
    requires Unreferenced(s.holds, req.tableId, req.seatIndex)
    requires later <= now + 120
    ensures var s2 := Sweep(HoldStep(s, req, now, freshId).after, later);
      && s2.tables[req.tableId].seats[req.seatIndex].status == HELD
      && ConfirmStep(s2, ConfirmRequest(freshId, [], [], true)).reply == Confirmed(req.tableId, req.seatIndex)
  {
    var s1 := HoldStep(s, req, now, freshId).after;
    HoldOnUnreferencedSeat(s, req, now, freshId);
    SweepKeepsLiveHold(s1, later, freshId);
    ConfirmSucceeds(Sweep(s1, later), ConfirmRequest(freshId, [], [], true));
  }

  /** After a successful hold on a seat no record pointed at, the new
      hold is the only record pointing at it. */
  lemma HoldOnUnreferencedSeat(s: Stores, req: HoldRequest, now: int, freshId: string)
    requires Wf(s)
    requires req.tableId in s.tables
    requires 0 <= req.seatIndex < s.tables[req.tableId].capacity
    requires req.seatIndex < |s.tables[req.tableId].seats|
    requires s.tables[req.tableId].seats[req.seatIndex].status == FREE
    requires Unreferenced(s.holds, req.tableId, req.seatIndex)
    ensures var s1 := HoldStep(s, req, now, freshId).after;
      && Wf(s1) && freshId in s1.holds
      && s1.holds[freshId] == HoldRecord(freshId, req.tableId, req.seatIndex, Some(now + 120))
      && req.tableId in s1.tables && req.seatIndex < |s1.tables[req.tableId].seats|
      && s1.tables[req.tableId].seats[req.seatIndex].status == HELD
      && forall h :: h in s1.holds && h != freshId ==>
           !(s1.holds[h].tableId == req.tableId && s1.holds[h].seatIndex == req.seatIndex)
  {
    HoldOnFreeSeat(s, req, now, freshId);
  }

  /** An expired hold left behind on a seat (release does not delete it)
      makes the next sweep free that seat even though a newer, live hold
      has it HELD. */
  lemma StaleHoldFreesNewerHold(s: Stores, req: HoldRequest, now: int, later: int, freshId: string, stale: string)
    requires Wf(s)
    requires req.tableId in s.tables
    requires 0 <= req.seatIndex < s.tables[req.tableId].capacity
    requires req.seatIndex < |s.tables[req.tableId].seats|
    requires s.tables[req.tableId].seats[req.seatIndex].status == FREE
    requires stale in s.holds && stale != freshId
    requires s.holds[stale].tableId == req.tableId && s.holds[stale].seatIndex == req.seatIndex
    requires IsExpired(s.holds[stale], later)
    ensures var s1 := HoldStep(s, req, now, freshId).after;
      && s1.tables[req.tableId].seats[req.seatIndex].status == HELD
      && Sweep(s1, later).tables[req.tableId].seats[req.seatIndex].status == FREE
  {
    var s1 := HoldStep(s, req, now, freshId).after;
    assert s1.holds[stale] == s.holds[stale];
    SweepSeat(s1, later, req.tableId, req.seatIndex);
  }

  /** Release does not delete hold records and confirm does not check that
      the seat is HELD: after hold and release, the old hold id still
      confirms and occupies the released seat. */
  lemma StaleHoldConfirmsAfterRelease(s: Stores, req: HoldRequest, now: int, freshId: string)
    requires Wf(s)
    requires req.tableId in s.tables
    requires 0 <= req.seatIndex < s.tables[req.tableId].capacity
    requires req.seatIndex < |s.tables[req.tableId].seats|
    requires s.tables[req.tableId].seats[req.seatIndex].status == FREE
    ensures var s1 := HoldStep(s, req, now, freshId).after;
      var s2 := ReleaseStep(s1, req.tableId, req.seatIndex).after;
      && s2.tables[req.tableId].seats[req.seatIndex].status == FREE
      && freshId in s2.holds
      && var r := ConfirmStep(s2, ConfirmRequest(freshId, [], [], false));
         r.reply == Confirmed(req.tableId, req.seatIndex)
         && r.after.tables[req.tableId].seats[req.seatIndex].status == OCCUPIED
  {
  }
}
