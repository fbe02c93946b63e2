# Hotel room booking: ledger, booking step, release step, state host

This project models the sequential core of a multi-process hotel simulation in Dafny. Each client is a process that books a room in a shared ledger, holds it for its rent time, and then releases it. The ledger holds 10 single rooms and 15 double rooms. Each room is `freed`, `busied_by_man`, `busied_by_woman` or `full`.

The model covers two components:

- **The booking and release steps** (module `Booking`), written once as pure functions:
  - `Claim` scans the single rooms in ascending order. The first freed one becomes full.
  - Only if no single room is freed does it scan the double rooms, in one ascending pass. It takes the first index that is freed or half-occupied by the client's own gender. A freed room becomes half-occupied by that gender. A same-gender half room becomes full.
  - `Release` touches only the booked index. A single room becomes freed. A full double room becomes half-occupied by the releaser's gender. A half-occupied double room becomes freed. A freed double room stays freed.
  - `ClaimSpec` describes the booking step room by room: the lowest matching index, and "only this index changed". `Claim` is proved to meet it, and `ClaimSpec` is proved to have no other solution.
  - `BookingScan.ClaimByScan` mirrors the source's two `for` loops, with `-1` meaning "not taken". Loop invariants prove it computes `Claim`.
- **The brokered state host** (module `Host`): a one-register state machine that starts with every room freed. A request with packet id 2 (SET) replaces the whole ledger with its payload, with no version check. Any other packet id (GET is 1) leaves the ledger unchanged. Every request is answered with the ledger after the request.

Module `Agent` composes the two:
- A client's visit on the shared-memory ledger (`MappedVisit`).
- The brokered client's GET, claim, SET sequence (`BrokeredBook`) and its GET, release, SET sequence (`BrokeredRelease`).
- What two clients do to each other with and without the lock.

Module `Rooms` holds:
- the ledger;
- the two gender readings;
- a guest headcount, used to state that booking adds exactly one guest and releasing removes exactly one.

Gender is an `int`, as in the source, and the asymmetric reading is modelled exactly:
- On a freed double room, 0 means a man and every other value means a woman.
- On a half-occupied room, only 0 matches a man and only 1 matches a woman.

`Release(Claim(L, g))` gives back `L` for every gender code, so no precondition restricts it. A code outside {0, 1} only ever takes freed double rooms (`OtherGenderCodesNeverShare`).

The double-room scan makes one pass with two tests per index. So an earlier same-gender half room beats a later freed room (`Scenarios.SecondWomanJoinsFirst`). The loop tests each index for both conditions, so a reading that takes freed rooms first would be wrong; the model follows the loop.

`Claim` scans its arrays to their actual length, while the source scans to the constants 10 and 15. On a ledger satisfying `Valid()` the two coincide, and `ClaimPreservesValid` shows the sizes are kept.

The same booking and release code appears in five files. They differ only in how the ledger is shared and locked, so each maps onto the same members:

| file | booking scan | out of service | release | ledger start |
|---|---|---|---|---|
| Grade4/main.c | 47-78 → `Claim`, `ClaimByScan` | 84-87 → `MappedVisit` | 96-105 → `Release` | 177-178 → `Initial` |
| Grade6/main.c | 53-84 → `Claim`, `ClaimByScan` | 90-93 → `MappedVisit` | 102-111 → `Release` | 152-153 → `Initial` |
| Grade7/client.c | 65-96 → `Claim`, `ClaimByScan` | 102-106 → `MappedVisit` | 115-124 → `Release` | (Grade7/hotel.c) |
| Grade8/client.c | 73-104 → `Claim`, `ClaimByScan` | 110-114 → `MappedVisit` | 123-132 → `Release` | (Grade8/hotel.c) |
| Grade9/client.c | 73-123 → `BrokeredBook` | 129-133 → `BrokeredBook` | 143-165 → `BrokeredRelease` | Grade9/hotel.c:78-80 → `Initial` |
| Grade10/hotel.c | (host only) | | | 77-79 → `Initial` |

## Model

| member | source | states |
|---|---|---|
| `Booking.FirstWhere` | Grade4/main.c:50-57 | An ascending scan that stops at the first match: the index found satisfies the test and no earlier index does; "not found" means no index does |
| `Booking.Claim` | Grade4/main.c:47-78 | Booking meets the room-by-room description. The lowest freed single becomes full and nothing else changes. Doubles are considered only when no single is freed. The lowest double that is freed or same-gender half is moved into, and only it changes. With neither, the ledger is unchanged |
| `Booking.ClaimSpecDeterminesClaim` | Grade6/main.c:53-84 | The room-by-room description fixes both the outcome and the resulting ledger, so any booking that meets it is `Claim` |
| `Booking.ClaimPreservesValid` | Grade9/client.c:83-111 | Booking keeps 10 single and 15 double statuses, and the index it reports lies inside the ledger |
| `Booking.OutOfServiceIff` | Grade7/client.c:79-106 | The outcome is "out of service" exactly when no single is freed and no double is freed or same-gender half; the ledger is then unchanged |
| `Booking.NeverJoinsFullOrOtherGender` | Grade8/client.c:88-103 | A booked double room was not full and, for gender 0 or 1, not half-occupied by the other gender |
| `Booking.OtherGenderCodesNeverShare` | Grade4/main.c:63-69 | A gender code other than 0 or 1 only takes a freed double room and leaves it half-occupied by a woman |
| `Booking.Release` | Grade4/main.c:96-105 | Release changes only the booked index. A single room becomes freed. A double room goes full → half of the releaser's gender, half → freed, freed → freed |
| `Booking.VacateUndoesMoveIn` | Grade6/main.c:102-108 | Moving out of a double room undoes moving in, for any room the client was admitted to and any gender code |
| `Booking.ReleaseUndoesClaim` | Grade4/main.c:50-105 | Release right after booking, with no change in between, restores the original ledger |
| `Booking.ClaimAddsOneGuest` | Grade8/client.c:76-104 | A successful booking adds exactly one guest to the ledger's headcount; "out of service" adds none |
| `Booking.ReleaseRemovesOneGuest` | Grade7/client.c:115-124 | Release removes exactly one guest, unless the booked room is already freed, in which case the ledger is unchanged |
| `BookingScan.ClaimByScan` | Grade8/client.c:73-104 | The two break-at-first-match loops with -1 sentinels compute exactly `Claim`: at most one index is taken, and each lies in range |
| `Rooms.Initial` | Grade9/hotel.c:78-80 | The host's starting ledger has 10 single and 15 double rooms, every one freed |
| `Rooms.InitialIsTheEmptyLedger` | Grade6/main.c:152-153 | The starting ledger (all freed) has the fixed sizes and is the only valid ledger with no guests |
| `Host.HostStep` | Grade9/hotel.c:84-97 | A SET replaces the whole ledger with its payload; any other packet id leaves it unchanged; the reply always equals the ledger after the request |
| `Host.HostLoopStep` | Grade10/hotel.c:83-96 | The element-wise copy loops over 10 singles and 15 doubles implement the host step |
| `Host.Serve` | Grade9/hotel.c:84-97 | The request loop over a whole run: the host always holds either its starting ledger or the payload of one of the SETs it served, never anything else |
| `Host.Replies` | Grade10/hotel.c:83-96 | The loop writes one reply per request, and the last reply is the ledger the host ends up holding |
| `Host.ReplyIsStateSoFar` | Grade10/hotel.c:95 | Over a whole run, the reply to the k-th request is the ledger after the first k+1 requests |
| `Host.ReadsLeaveStateAlone` | Grade10/hotel.c:86 | A run with no SET leaves the ledger as it was |
| `Host.LastSetWins` | Grade9/hotel.c:87-94 | After any run, the ledger is the payload of the last SET, whatever came before it |
| `Host.ServeConcat` | Grade9/hotel.c:84-97 | Serving two batches of requests in turn equals serving their concatenation |
| `Host.SetLaws` | Grade10/hotel.c:86-93 | SET is idempotent, the second of two SETs wins, and a GET after SET x replies x |
| `Host.SetOfSnapshotIsNoOp` | Grade9/client.c:113-123 | Sending back, unchanged, a snapshot just read leaves the host's ledger unchanged |
| `Agent.MappedVisit` | Grade7/client.c:61-127 | A visit on the shared ledger books exactly as `Claim`, outcome and ledger. It releases nothing exactly when out of service. Otherwise it releases the booked index on the ledger it finds after the rent time (other clients' changes kept), and that restores the starting ledger when no one else changed it |
| `Agent.BrokeredBook` | Grade9/client.c:73-123 | GET, book on the snapshot, then SET leaves the host holding exactly the booked ledger. Out of service, it SETs the unchanged snapshot. The ledger read back equals the host's |
| `Agent.BrokeredRelease` | Grade9/client.c:143-165 | GET, release at the booked index, then SET leaves the host holding exactly the released ledger |
| `Agent.BrokeredVisitRestoresHost` | Grade9/client.c:73-165 | Booking and releasing through the host, with no other client in between, restores the host's ledger |
| `Agent.BookingAsRequests` | Grade9/client.c:73-123 | As a request sequence served by the host, the GET reply is the host's ledger and the resulting ledger is the brokered booking's |
| `Agent.GatedBookingsBothCount` | Grade9/client.c:70-126 | Two bookings run one after the other under the lock add two guests, and two single rooms taken are different |
| `Agent.UngatedBookingsLoseAnUpdate` | Grade9/client.c:70-126 | Without the lock, two clients that both GET before either SETs take the same single room, and the second SET erases the first: one guest is recorded for two clients |
| `Scenarios.FirstClientTakesSingleZero` | Grade4/main.c:50-57 | On the all-freed ledger any client takes single room 0, and only that room changes |
| `Scenarios.WomanTakesFreedDouble` | Grade4/main.c:62-67 | With all singles full and all doubles freed, gender 1 takes double 0 as busied by a woman |
| `Scenarios.SecondWomanJoinsFirst` | Grade6/main.c:68-83 | With all singles full and double 0 busied by a woman, gender 1 fills double 0 although double 1 is freed |
| `Scenarios.ManSkipsWomansRoom` | Grade7/client.c:80-95 | With double 0 busied by a woman, gender 0 skips it and takes freed double 1 as busied by a man |
| `Scenarios.FullHotelTurnsAway` | Grade8/client.c:110-114 | With every room full the client is out of service and the ledger is unchanged |
| `Scenarios.ReleaseOfSingleThree` | Grade4/main.c:103-104 | Releasing single room 3 frees it and leaves the other rooms unchanged |

## Left out

- Locking: the named semaphores, the System V "wait for zero, then set" lock, and their release. The model assumes each booking and each release runs serialised. In Grade6 and Grade8 the source does not guarantee this: `wait_semaphore` (Grade6/main.c:32-39, Grade8/client.c:26-33) waits for the value to reach zero and then sets it in a second, separate call, so two clients can both pass it. `Agent.UngatedBookingsLoseAnUpdate` shows what the brokered variant loses without serialisation.
- The supervisor's fork-and-handoff loop and its client-wait semaphore: process spawning and a rendezvous, which is concurrency.
- The rent-time `sleep`. In `MappedVisit` it becomes the `later` parameter: the ledger found after the wait, which other clients may have changed.
- Signal handlers, `free_resources` teardown, and creating or removing shared memory, FIFOs and semaphores: operating-system resource plumbing.
- Reading `clients.txt`, `atoi` of the command-line arguments, and all `printf` logging: I/O. Client id, gender and rent time are plain integers.
- Grade7/hotel.c and Grade8/hotel.c: they only create the shared segment, zero the ledger and wait. Their all-freed start is `Rooms.Initial`.
- The byte-level `write`/`read` of messages and the `memset` trick that zeroes the ledger because `freed` is 0. A message is a datatype of packet id and ledger. Enum values outside the four statuses cannot be represented.
- The GET message's payload is uninitialised memory in the source. It is an arbitrary parameter that the host provably ignores.
