# OSU Library seat service — a Dafny model

This project models the seat-reservation core of the OSU Library back end and proves properties of that model. The modelled parts are:

- **Library API routes** (`app/main.py`). `health` sweeps expired holds. `hold_seat` marks a FREE seat HELD and writes a hold record. `confirm_seat` turns a held seat OCCUPIED and deletes the hold. `release_seat` forces a seat FREE. `match_tables` is the study-buddy finder.
- **Store** (`app/store_dynamo.py`). The two DynamoDB tables are `LibraryTables`, keyed by `tableId`, and the holds table, keyed by `holdId`. Here they are two maps inside one `Store` object. Its methods are `upsert_table`, `save_table`, `get_table`, `get_floor_tables`, `create_hold`, `get_hold`, `delete_hold` and the `expire_holds` sweep.
- **Occupancy writer** (`app/update_chairs.py`). The camera-detection side uses it to mark seats OCCUPIED by index or to reset a table.
- **Seeding script** (`app/seed.py`). It expands every table's seats, fills in defaults and upserts each table.
- **Layout generator** (`tools/generate_seed.py`). It builds the floors and tables of the simulated Thompson Library.
- **Forum back end** (`forum/backend/main.py`). `convert_decimals` turns DynamoDB decimals into ints and floats. The empty-query guard of `search_questions` is also modelled.

## How the code is modelled

- **Routes** are methods over a `Store`. Each is proved equal to a step function on the stores' contents (`HoldStep`, `ConfirmStep`, `ReleaseStep`). The lemmas about those functions state the hold/confirm/release state machine.
- **Parameters for time and ids.** The clock `now` and the fresh hold id are explicit parameters.
- **The expiry sweep** loops over a snapshot of the holds in an arbitrary order. It is modelled twice.
  - As intended, with the stored seat index read as an integer: proved equal to the closed form `Sweep`, which every other lemma uses.
  - As written, where the unconverted `Decimal` index makes the pass raise: see "## Findings".
- **Errors.** An exception a route raises becomes `Error(status)`. A seat index below `capacity` but past the end of `seats` makes the Python code raise an uncaught `IndexError`. That case is modelled as `Error(500)` with nothing changed.
- **The generator** is a `Generator` object. It holds the library's id and name and the `floors` and `tables` lists. Its builders are proved to produce the closed-form layout `TablesOfLevels`.

### Where the code and its documentation disagree (the model follows the code)

- `hold_seat` stores a 120-second hold whatever `ttlSec` is requested. It reports `expiresIn: 420` (`AppMain.HoldIgnoresTtl`, `AppMain.HoldOnFreeSeat`).
- The `ConfirmRequest` docstring says `courseCodes` and `topicTags` are stored on the table. `confirm_seat` never stores them (`AppMain.ConfirmIgnoresMetadata`).
- The docstring says a confirm needs a non-expired hold. `confirm_seat` checks neither the expiry nor that the seat is HELD.
  - Consequence: after a release, the old hold id still confirms (`AppMain.StaleHoldConfirmsAfterRelease`).
  - Consequence: `release_seat` leaves hold records behind. With the corrected sweep (`StoreDynamo.Store.ExpireHolds`), a stale expired record on a seat frees that seat at the next sweep, even while a newer live hold has it HELD (`AppMain.StaleHoldFreesNewerHold`). As written, the sweep raises at that record instead (see "## Findings").
- The comment on `UPPER_FLOOR_PLAN` says an upper floor seats about 49 (`20*1 + 10*2 + 3*4 = 49`). The plan actually gives 52 seats (`GenerateSeed.UpperFloorCapacity`).

## Model

| member | source | states |
|---|---|---|
| StoreDynamo.PutTable | app/store_dynamo.py:56-61 | `put_item` replaces the whole record at its `tableId` and leaves every other key as it was |
| StoreDynamo.Store.UpsertTable | app/store_dynamo.py:56-61 | the tables map becomes `PutTable(old, item)`; the holds are unchanged; every record stays under its own key |
| StoreDynamo.Store.SaveTable | app/store_dynamo.py:106-111 | the same whole-record replacement as `upsert_table` |
| StoreDynamo.Store.GetTable | app/store_dynamo.py:97-103 | returns a record exactly when the key is present, and then the stored record |
| StoreDynamo.Store.GetFloorTables | app/store_dynamo.py:64-80 | returns exactly the stored records whose `floorId` matches, each once, in an unspecified order |
| StoreDynamo.Store.CreateHold | app/store_dynamo.py:115-131 | adds one record `{holdId, tableId, seatIndex, expiresAt = now + ttl}` under the fresh id, returns that id, and changes nothing else |
| StoreDynamo.Store.GetHold | app/store_dynamo.py:134-137 | returns a record exactly when the key is present, and then the stored record |
| StoreDynamo.Store.DeleteHold | app/store_dynamo.py:140-142 | removes only that key; a missing key is a no-op; tables unchanged |
| StoreDynamo.Sweep | app/store_dynamo.py:145-166 | table keys are kept; a hold survives iff it has not expired; surviving holds are unchanged |
| StoreDynamo.Store.ExpireHolds | app/store_dynamo.py:145-166 | one pass over the scanned holds, in any order, with the seat index read as an integer, leaves exactly `Sweep(old contents, now)` |
| StoreDynamo.Store.ExpireHoldsAsWritten | app/store_dynamo.py:156-166 | the pass as written raises iff some expired hold points at an existing table and an in-range index; it never changes a table; only expired holds that do not index a seat are deleted; without a raise, exactly the expired holds are deleted |
| StoreDynamo.SweepSeat | app/store_dynamo.py:160-165 | a seat turns FREE iff it was HELD and some expired hold points at it; otherwise it is unchanged |
| StoreDynamo.SweepOnlyFreesHeld | app/store_dynamo.py:162-165 | the sweep only turns HELD seats FREE; no other seat and no other table field changes |
| StoreDynamo.SweepWf | app/store_dynamo.py:145-166 | the sweep keeps every record under its own key |
| StoreDynamo.SweepKeepsLiveHold | app/store_dynamo.py:157-166 | a live hold and its seat survive the sweep when no other record points at that seat |
| StoreDynamo.SweepIdempotent | app/store_dynamo.py:157-166 | sweeping twice at the same `now` equals sweeping once |
| AppMain.Health | app/main.py:95-102 | one intended sweep at `now` (seat index as an integer), then ok |
| AppMain.HealthAsWritten | app/main.py:95-102 | with the sweep as written: 500 iff the sweep raises, tables never changed, and otherwise the holds end as in `Sweep` |
| AppMain.HoldSeat | app/main.py:108-125 | the route's reply and new stores are those of `HoldStep` |
| AppMain.ConfirmSeat | app/main.py:127-154 | the route's reply and new stores are those of `ConfirmStep` |
| AppMain.ReleaseSeat | app/main.py:158-168 | the route's reply and new stores are those of `ReleaseStep` |
| AppMain.HoldOnFreeSeat | app/main.py:113-125 | on a FREE seat, only that seat changes, to HELD; one hold record expiring at `now + 120` is added; the reply has the new id and 420 |
| AppMain.HoldRejects | app/main.py:110-117 | the hold fails iff the table is unknown (404), the index is outside `[0, capacity)` (400), the index is past the seats (500) or the seat is not FREE (409); on failure nothing changes |
| AppMain.HoldIgnoresTtl | app/main.py:123-125 | the requested ttl has no effect on the reply or the stores |
| AppMain.ConfirmUnknownHold | app/main.py:129-131 | an unknown hold id gives 410 and changes nothing |
| AppMain.ConfirmSucceeds | app/main.py:137-154 | on an existing seat that is not OCCUPIED: the seat becomes OCCUPIED; `isOpenToJoin` takes the request's value; exactly that hold is deleted; nothing else changes |
| AppMain.ConfirmRejects | app/main.py:133-144 | unknown table gives 404, a stored index outside the seats gives 400, an OCCUPIED seat gives 409; in each case nothing changes |
| AppMain.ConfirmIgnoresMetadata | app/main.py:148-151 | the request's `courseCodes` and `topicTags` never affect the outcome |
| AppMain.ReleaseFrees | app/main.py:158-168 | the seat becomes FREE whatever it was, only that seat changes, and the holds are never touched; 404 and 400 as for hold; an index inside the capacity but past the seats gives 500 with nothing changed |
| AppMain.ReleaseIdempotent | app/main.py:158-168 | releasing twice equals releasing once, for both the reply and the stores |
| AppMain.StepsKeepWf | app/main.py:108-168 | every route keeps every record under its own key |
| AppMain.HoldThenConfirm | app/main.py:108-154 | hold then confirm on a FREE seat ends OCCUPIED, with the holds back to what they were |
| AppMain.HoldThenExpire | app/store_dynamo.py:157-166 | a sweep more than 120 s after the hold frees the seat; the hold id then gets 410 |
| AppMain.ExpiredHoldBreaksHealth | app/store_dynamo.py:160-165 | after a hold and a sweep more than 120 s later, the as-written sweep raises and the seat stays HELD, while the intended sweep frees it |
| AppMain.HoldOnUnreferencedSeat | app/main.py:121-123 | after a hold on a seat no record pointed at, the new hold is the only record pointing at it |
| AppMain.HoldSurvivesEarlySweep | app/store_dynamo.py:157-166 | when no other hold record points at the seat, a sweep up to 120 s after the hold keeps the seat HELD, and the hold still confirms |
| AppMain.StaleHoldFreesNewerHold | app/store_dynamo.py:158-165 | with the corrected sweep, an expired record left on a seat frees it at the next sweep, even while a newer hold has it HELD |
| AppMain.StaleHoldConfirmsAfterRelease | app/main.py:158-168 | after hold and release, the old hold id still confirms and occupies the seat |
| AppMatch.FloorsToVisitDistinct | app/main.py:177 | with a non-empty floor id, just that floor; otherwise the eleven floors F1..F11 in order; in both cases pairwise distinct |
| AppMatch.UpperSetsMeet | app/main.py:184-188 | the upper-cased code sets intersect iff some table code equals some requested code, ignoring case |
| AppMatch.Passes | app/main.py:181-188 | the two `continue` guards let a table through iff it is open to join (when `open_only` is set) and shares a course (when courses are given) |
| AppMatch.KeepPassing | app/main.py:181-188 | the inner loop returns `Filter(items)`: exactly the floor's tables that the filter wants, in the order the store returned them, and no id twice |
| AppMatch.MatchTables | app/main.py:171-190 | returns exactly the stored tables on the visited floors that pass the filter; floors in visiting order; no table twice |
| UpdateChairs.UpdateTableWithOccupiedChairs | app/update_chairs.py:9-45 | an empty list or a missing table changes nothing; otherwise only that table becomes `MarkOccupied(table, indices)`, with bounds read first |
| UpdateChairs.MarkOccupiedEffect | app/update_chairs.py:28-45 | a listed in-range seat ends OCCUPIED with occupant `student_{i+1}`; other seats, the seat count and other fields are unchanged |
| UpdateChairs.MarkNothing | app/update_chairs.py:14-16 | the empty list is a no-op |
| UpdateChairs.StudentIdsDistinct | app/update_chairs.py:36 | different seats get different occupant ids |
| UpdateChairs.MarkOccupiedIdempotent | app/update_chairs.py:28-45 | writing the same list twice equals writing it once |
| UpdateChairs.MarkOccupiedCompose | app/update_chairs.py:28-45 | two calls in a row equal one call with both lists |
| UpdateChairs.ResetAllSeatsToFree | app/update_chairs.py:47-74 | a missing table changes nothing; otherwise every seat of that table is vacated and nothing else changes |
| UpdateChairs.ResetEffect | app/update_chairs.py:60-72 | after a reset every seat is FREE with no occupant; seat ids, seat count and other fields are kept |
| UpdateChairs.ResetAfterMark | app/update_chairs.py:47-74 | a reset erases any earlier occupancy write |
| Seed.RunSeed | app/seed.py:32-65 | a missing file stops before any write; otherwise one upsert per table object, in order, and the count equals the number of objects |
| Seed.PrepareEffect | app/seed.py:48-58 | `capacity` seats (none when it is below one), seat `i` FREE with id `{tableId}-S{i}`; the three matching attributes keep a present value, else default to false, [], [] |
| Seed.PrepareOverwritesSeats | app/seed.py:48-51 | any seats already in the seed object are discarded |
| Seed.SeatIdsDistinct | app/seed.py:49 | seat ids within a prepared table are pairwise distinct |
| Seed.UpsertAllKeys | app/seed.py:44-63 | after seeding, the keys are the old ones plus the seeded ids; untouched keys keep their records |
| Seed.UpsertAllLast | app/seed.py:60-63 | a seeded id holds the prepared version of its last occurrence in the file |
| Seed.SeedFreshStore | app/seed.py:43-63 | an empty store seeded with distinct ids holds exactly one prepared record per object, as many as the reported count |
| GenerateSeed.Generator.AddTable | tools/generate_seed.py:48-59 | appends exactly one record `{floor}-T{idx:02d}` with the given floor, type, capacity and tags, and returns `idx + 1` |
| GenerateSeed.Generator.AddRun | tools/generate_seed.py:71-78 | `n` calls of `add_table` for one kind append the layout of `n` such tables, counting on from `idx` |
| GenerateSeed.Generator.AddRooms | tools/generate_seed.py:80-81 | one room per `room_cap` entry, with that capacity, counting on from `idx` |
| GenerateSeed.Generator.AddLowerTables | tools/generate_seed.py:69-81 | a lower floor's four loops append the layout of its kinds, with indices from 1 |
| GenerateSeed.Generator.BuildLowerFloor | tools/generate_seed.py:65-81 | one lower level appends its floor entry and its tables |
| GenerateSeed.Generator.BuildLowerFloors | tools/generate_seed.py:61-81 | appends floors F1..F4 and their tables, floor after floor |
| GenerateSeed.Generator.BuildUpperFloor | tools/generate_seed.py:87-99 | one upper level appends its floor entry and its tables |
| GenerateSeed.Generator.BuildUpperFloors | tools/generate_seed.py:83-99 | appends floors F5..F11 and their tables, floor after floor |
| GenerateSeed.Generator.constructor | tools/generate_seed.py:41-46 | the container starts with library id "thompson", name "Thompson Library" and empty floor and table lists |
| GenerateSeed.Generate | tools/generate_seed.py:101-106 | the two builders on a fresh container produce the floors and tables of levels 1..11 under the Thompson Library's id and name |
| GenerateSeed.GeneratedFloors | tools/generate_seed.py:65-89 | 11 floors F1..F11 with levels 1..11, pairwise distinct; F1..F4 "group", the others "quiet" |
| GenerateSeed.LowerFloorOrder | tools/generate_seed.py:61-81 | a lower floor has `ind + duo + g4 + len(room_cap)` tables, ids numbered 1.. in order; individual/1, duo/2, group/4, then rooms with their `room_cap` capacities |
| GenerateSeed.UpperFloorOrder | tools/generate_seed.py:83-99 | an upper floor has 33 tables, ids numbered 1..33: 20 individual/1, 10 duo/2, 3 group/4 |
| GenerateSeed.FloorCounts | tools/generate_seed.py:27-36 | 47, 46, 48 and 43 tables on F1..F4; 33 on each upper floor |
| GenerateSeed.TotalTables | tools/generate_seed.py:101-116 | 415 tables in all |
| GenerateSeed.LowerCapacity | tools/generate_seed.py:68-81 | a lower floor seats `ind + 2*duo + 4*g4 + sum(room_cap)` |
| GenerateSeed.LowerFloorCapacity | tools/generate_seed.py:27-32 | F1..F4 seat 99, 100, 100 and 92 |
| GenerateSeed.UpperFloorCapacity | tools/generate_seed.py:35-36 | an upper floor seats 52 |
| GenerateSeed.TableIdParts | tools/generate_seed.py:53 | below 100, a table id determines both its floor id and its index |
| GenerateSeed.LevelsIdsDistinct | tools/generate_seed.py:61-99 | when no floor has 99 tables, every id names its own floor with an index below 100, and no two ids are equal |
| GenerateSeed.GeneratedIdsDistinct | tools/generate_seed.py:48-99 | all 415 generated table ids are distinct |
| ForumBackend.ConvertDecimals | forum/backend/main.py:71-79 | output has no decimals; lists keep length; dicts keep keys; an integral decimal becomes the int of the same value, a non-integral one a float of it; other scalars unchanged |
| ForumBackend.ConvertElementwise | forum/backend/main.py:73-76 | elements and dict values are converted in place, in order, under the same keys |
| ForumBackend.ConvertFixesDecimalFree | forum/backend/main.py:71-79 | a value without decimals is returned unchanged |
| ForumBackend.ConvertIdempotent | forum/backend/main.py:71-79 | converting twice equals converting once |
| ForumBackend.SearchQuestions | forum/backend/main.py:180-197 | 400 iff the query is empty or all whitespace; otherwise the store's results with decimals converted, or 500 when the store raised |
| Text.StripEmpty | forum/backend/main.py:188 | `q.strip()` is empty iff every character is whitespace; otherwise the rest is a slice that starts and ends with a non-space character |
| Text.FloorIdInjective | app/main.py:177 | different levels give different `F{level}` floor ids |
| Text.Pad2RoundTrip | tools/generate_seed.py:53 | parsing `{idx:02d}` gives back `idx` |
| Text.DigitsRoundTrip | app/main.py:177 | parsing the decimal digits of `n` gives back `n` |

## Findings

| source | as written | input that shows it | evidently intended | confidence | as-written member | corrected member |
|---|---|---|---|---|---|---|
| app/store_dynamo.py:160-163 | `expire_holds` uses `h["seatIndex"]` as a list index without converting it. boto3 returns every stored number as a `decimal.Decimal`, and a `Decimal` list index raises `TypeError` | hold a FREE seat with `POST /hold`, then call `/health` more than 120 s later: the expired hold's table exists and its index is in range, so the sweep raises, `/health` answers 500, the seat stays HELD and the hold record stays | convert the index as `confirm_seat` does with `int(hold["seatIndex"])` (app/main.py:137), so the sweep frees the HELD seat and deletes the hold | high, from the code and boto3's number type; not executed | AppMain.ExpiredHoldBreaksHealth | StoreDynamo.Store.ExpireHolds |

The as-written pass is `StoreDynamo.Store.ExpireHoldsAsWritten`, and `AppMain.HealthAsWritten` is the route around it. The rest of the model uses the corrected sweep. `AppMain.Health` calls `ExpireHolds`, and `AppMain.HoldThenExpire` proves that the seat is freed.

## Left out

- boto3 client setup, `load_dotenv` and the GSI-query-then-scan fallback are left out. `get_floor_tables` is modelled by what both paths return.
- DynamoDB's own TTL deletion of hold records is left out. It runs in the background, at times the code cannot see. `get_hold` is an exact lookup.
- `uuid.uuid4()` and `time.time()` are left out. The fresh hold id and `now` are parameters.
- StoreDynamo.Store.ExpireHolds: uses one `now` for the whole pass, while `expire_holds` reads the clock once per scanned item. Scan paging is also left out.
- StoreDynamo.Store.GetFloorTables: promises the set of matching records but no order, because the query order is not visible.
- Concurrency is left out. The code has no locking or compare-and-swap, and races between a route and the sweep fall outside a sequential model.
- HTTP transport, CORS, response models and the Mangum wrapper are left out. The debug routes `list_floor_tables` and `get_hold_debug` are left out as well: they only forward to `get_floor_tables` and `get_hold`.
- `get_all_tables` is left out. It is not used by any modelled route.
- `forum/backend/forum_store.py` is not part of this model. Its logic sits in DynamoDB expressions. `SearchQuestions` takes the store's answer as a parameter.
- The forum's other routes and `test_rekognition.py` are not part of this model. They are plain store wrappers, or image and float geometry.
- `app/schemas.py` and `app/store.py` are not part of this model. They hold declarations only.
- File reading and writing, JSON encoding and printing are left out. This covers the seed file read, the generator's output file and every `print`. `Seed.RunSeed` takes the parsed file, or None when it is missing.
- ForumBackend.ConvertDecimals: `float(obj)` rounds to binary; the model keeps the exact value inside an opaque `Float`.
- ForumBackend.ConvertDecimals: Decimal NaN and infinities are not modelled; DynamoDB never returns them.
- Text.Upper: upper-cases ASCII letters only, where Python's `str.upper` covers all of Unicode.
- Text.IsSpace: `str.strip` also removes non-ASCII whitespace; the model knows only the ASCII whitespace characters.
- Stored records are assumed to carry every attribute the routes read, except `expiresAt`, which may be missing. A record missing another attribute would raise a `KeyError` in the source. That case is not modelled.
- The generic 500 path of `search_questions` covers an exception raised by `convert_decimals`. That path is not modelled, because the conversion never raises on the values modelled here.
