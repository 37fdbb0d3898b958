# Hospital services backend — a verified Dafny model

This project models the in-memory logic of a hospital services API and the
classifiers of its pharmacy page. It covers six areas:

- **Pharmacy inventory and billing.** Each medicine record holds a stock
  count and an ordered dictionary of serial units. Each unit has an expiry
  date and a price.
  - Billing makes one pass over the units. It purges every expired unit,
    sells the unexpired unit with the earliest expiry (the first in
    dictionary order on a tie), and charges a per-patient ledger of
    purchases, frequencies and total price.
- **Pharmacy analytics.** These are three read-only queries: the most
  demanded medicine, the medicine with the lowest stock, and the nearest
  expiry. Each takes the least tuple in Python's tuple order, which is the
  root of a `heapq` heap.
- **Emergency triage.**
  - A symptom table maps symptoms to four priority levels.
  - A binary min-heap holds `(priority, arrival, patient)` entries.
  - An arrival counter drives a round-robin doctor assignment.
  - Two side tables hold admission times and assigned doctors.
  - There are also a "N sec/min/hr ago" formatter and per-label statistics.
- **Hospital navigation.** An undirected weighted graph of eleven locations
  and sixteen corridors. Dijkstra's algorithm with lazy deletion finds the
  route, and the path is rebuilt along the predecessor links. `find_path`
  normalises its inputs and validates them.
- **Appointments.**
  - Patients keep a visit history.
  - Doctors have one slot per hour, each free or holding a patient id.
  - The operations are booking, recording a visit (which frees the slot and
    appends to the history), and deletion.
- **Pharmacy page classifiers.** The stock badge, the expiry status on a whole
  number of days, and the filter that keeps only well-formed medicine
  entries.

A Python `dict` is an ordered association list (module `Assoc`). Assigning
to an existing key keeps its position, and assigning to a new key appends
it. This order matters in two places: the FIFO tie-break and the order of
every listing. Every endpoint either succeeds with `Ok(value)` or fails
with `Err(status, detail)`. The detail is the message the endpoint raises.

The modules are:

- `Common`: `Option`, `Result` and the status codes.
- `Text`: `str(n)`, ASCII case mapping, `strip`, `title`, and Python string
  order.
- `Assoc`: ordered association lists.
- `Inventory`: the pharmacy store and billing.
- `Analytics`: the three analytics queries.
- `Heap`: the triage heap.
- `Triage`: the triage desk.
- `Navigation`: the hospital graph and Dijkstra.
- `Appointments`: the appointment registry.
- `PharmacyView`: the page classifiers.

The code that changes state in place is modelled as classes whose methods
name what they modify:

- `Inventory.Pharmacy`
- `Triage.TriageDesk`
- `Navigation.HospitalMap`
- `Appointments.Registry`

Each keeps a `Valid()` invariant. The loops of the source are `while` and
`for` loops with invariants:

- the billing scan;
- the purge;
- the heap sifts;
- the statistics pass;
- Dijkstra and its path reconstruction;
- the graph initialisation.

Time enters as parameters. In `Inventory`, `now` is in microseconds and an
expiry is a day number. In `Triage`, `now` and the recorded admission times
are whole seconds, as is `elapsed`. `today` is the date string of a visit.

## Behaviour of the code worth noting

- Adding a serial that already exists overwrites it; nothing rejects
  duplicates.
- Prices are not validated.
- There is no per-medicine "sold" counter. Demand is the sum of the
  patients' frequency maps.
- The lowest-stock query includes medicines at zero stock.
- The nearest-expiry query includes expired units and skips only dates
  that do not parse.
- A FIFO tie goes to the unit that comes first in dictionary order, not to
  the smallest serial id.
- Billing checks the stored stock before scanning. When every unit is
  expired, the purge is kept even though the bill fails.
- There is no locking and no concurrency.

## Model

| member | source | states |
|---|---|---|
| Text.IntToStringInjective | backend/unified_api.py:740 | different hours give different `str(t)` slot keys, so slots may be keyed by the hour itself |
| Inventory.DatedTodayIsExpired | backend/unified_api.py:986-987 | a unit whose expiry day is today counts as expired at any moment after midnight, and tomorrow's does not |
| Inventory.ExpiredKeysAreKeys | backend/unified_api.py:985-989 | every key collected as expired is a serial of the medicine |
| Inventory.SellableOnly | backend/unified_api.py:996-998 | the units left after the purge are exactly the unexpired ones with a parsed date |
| Inventory.PurgeCount | backend/unified_api.py:996-1001 | the purged and the kept units together are all the units, so `expired_removed` counts exactly the units removed |
| Inventory.NothingSellable | backend/unified_api.py:1001-1005 | with no sellable unit the purge leaves the medicine with no serials |
| Inventory.PurgeLeavesSellable | backend/unified_api.py:996-998 | deleting the collected expired keys leaves exactly the sellable units, in order |
| Inventory.FifoChoiceUnique | backend/unified_api.py:992-994 | at most one unit satisfies the FIFO rule (earliest expiry, first in order on a tie) |
| Inventory.FifoIndex | backend/unified_api.py:985-994 | reference definition: no index exactly when no unit is sellable; otherwise the index satisfies the FIFO rule |
| Inventory.ScanSerials | backend/unified_api.py:985-994 | the single pass fails with 500 exactly when a date does not parse; otherwise it collects exactly the expired keys in order and picks the FIFO unit, which equals `FifoIndex` |
| Inventory.DeleteKeys | backend/unified_api.py:997-998 | deleting the keys one by one removes exactly the entries with those keys and keeps the order of the rest |
| Inventory.FifoChoiceSurvivesPurge | backend/unified_api.py:992-998 | the chosen unit survives the purge, and no surviving unit expires before it |
| Inventory.SellFifo | backend/unified_api.py:980-1011 | the serials left are the sellable units minus the sold one; the sold unit is the FIFO choice; with nothing sellable the record is emptied; it reports the number of expired units purged |
| Inventory.SaleFrom | backend/unified_api.py:980-1011 | the outcome of a scan: 400 "No non-expired … available" exactly when no unit is sellable; otherwise the FIFO unit's serial and price, the number of units left after the sale and the number purged |
| Inventory.Charge | backend/unified_api.py:1026-1037 | appends exactly one purchase, raises that medicine's frequency by 1 and no other, and adds the price to the total |
| Inventory.ChargeKeepsConsistent | backend/unified_api.py:1026-1037 | charging keeps each frequency equal to the number of purchases of that medicine, and the total equal to the sum of the prices |
| Inventory.SearchMedicine | backend/unified_api.py:953-965 | 404 "Medicine not found" exactly when the name is absent, else that record |
| Inventory.AllMedicines | backend/unified_api.py:892-903 | one entry per medicine, in insertion order, with its stock and serials |
| Inventory.BillingPatients | backend/unified_api.py:1052-1065 | one entry per patient in insertion order, whose purchase count is the length of its history |
| Inventory.BillingPatientsAgree | backend/unified_api.py:1052-1065 | in a consistent ledger, each listed frequency and total agrees with the listed purchases |
| Inventory.Pharmacy.constructor | backend/unified_api.py:366-372 | an empty inventory and an empty ledger, which are valid |
| Inventory.Pharmacy.AddMedicineSerial | backend/unified_api.py:905-930 | creates the record if absent and stores the unit, overwriting an existing serial; stock equals the number of serials and rises only for a new serial; the ledger is untouched |
| Inventory.Pharmacy.RemoveMedicineSerial | backend/unified_api.py:932-951 | an unknown medicine or serial gives 404 and no change; otherwise deletes exactly that serial and keeps the record even at stock 0, with stock recomputed |
| Inventory.Pharmacy.Dispense | backend/unified_api.py:968-1012 | an unknown medicine gives 404 and stock 0 gives 400, both with no change; a date that does not parse gives 500 with no change; with no sellable unit it gives 400 but keeps the purge; otherwise it sells the FIFO unit |
| Inventory.Pharmacy.SellStocked | backend/unified_api.py:980-1011 | on a stocked medicine: a date that does not parse gives 500 with no change; otherwise the record keeps exactly the sellable units minus the sold one, or is emptied when none is sellable, and the result is `SaleFrom` of the old units |
| Inventory.Pharmacy.RecordPurchase | backend/unified_api.py:1014-1039 | creates the patient's entry if absent and charges exactly that entry; other patients are unchanged |
| Inventory.Pharmacy.BillPatient | backend/unified_api.py:967-1050 | the whole bill; a failed bill never touches the ledger; a successful one returns the sold serial, its price, the new total, the remaining stock and `expired_removed` |
| Analytics.Least | backend/unified_api.py:1081-1085 | the root of the heap: no index exactly for an empty heap, otherwise a key no greater in tuple order than any other |
| Analytics.LeastIsMinimal | backend/unified_api.py:1081-1085 | no key is strictly below the chosen one |
| Analytics.AddCountsSums | backend/unified_api.py:1074-1075 | merging one frequency map adds its count for every medicine and keeps keys unique |
| Analytics.DemandSums | backend/unified_api.py:1071-1075 | the merged map holds, for each medicine some patient bought, the sum of its counts over all patients, and nothing else |
| Analytics.MostDemandedIsMost | backend/unified_api.py:1067-1093 | None exactly when no patient bought anything; otherwise a bought medicine with its total demand that no medicine beats, with ties going to the smaller name |
| Analytics.MostDemandedNone | backend/unified_api.py:1071-1079 | there is no answer exactly when every patient's frequency map is empty |
| Analytics.MostDemandedBest | backend/unified_api.py:1071-1093 | the answer is a medicine some patient bought, reported with its total demand, and every bought medicine has a smaller total or the same total and a name no smaller |
| Analytics.LowestStock | backend/unified_api.py:1095-1117 | None exactly for an empty inventory; otherwise the least `(stock, name)` over every medicine, zero stock included |
| Analytics.Parsed | backend/unified_api.py:1126-1131 | a medicine's batches are exactly its units whose date parses |
| Analytics.Batches | backend/unified_api.py:1125-1131 | every parseable unit of every medicine, and nothing else |
| Analytics.NearestExpiry | backend/unified_api.py:1119-1147 | None exactly when no date parses; otherwise the least `(expiry, medicine, serial, price)` among all parseable units |
| Analytics.NearestExpiryCoversAll | backend/unified_api.py:1125-1136 | expired units are candidates too: no parseable unit expires before the answer |
| Analytics.NearestExpiryNone | backend/unified_api.py:1133-1134 | with no parseable unit there is no answer |
| Heap.RootIsLeast | backend/unified_api.py:544 | in a heap the root is no greater than any entry, so `heappop` returns the least `(priority, arrival)` |
| Heap.UpStep | backend/unified_api.py:524 | one climbing step of `heappush` keeps the heap order everywhere except one link higher |
| Heap.DownStep | backend/unified_api.py:544 | one descending step of `heappop` (swap with the smaller child) keeps the partial heap order |
| Heap.SiftUp | backend/unified_api.py:524 | climbing restores the heap and permutes nothing in or out |
| Heap.SiftToLeaf | backend/unified_api.py:544 | descending to a leaf leaves only the climb to fix, and keeps the entries |
| Heap.Push | backend/unified_api.py:524 | `heappush`: a heap with exactly the new entry added |
| Heap.Pop | backend/unified_api.py:544 | `heappop`: returns the root and leaves a heap of exactly the other entries |
| Triage.SeverityLevels | backend/unified_api.py:29-73 | 36 symptoms, each with a priority between 1 and 4 |
| Triage.Normalise | backend/unified_api.py:502 | the lower-cased symptom with only whitespace cut off at either end: a slice of it, with no upper-case letter, no space at either end, and never longer |
| Triage.SeverityLabel | backend/unified_api.py:119-121 | always one of the four labels |
| Triage.SeverityLabelRoundTrip | backend/unified_api.py:119-121 | on levels 1 to 4 the label reads back as the level; any other priority reads as "Normal" |
| Triage.DoctorIndex | backend/unified_api.py:137-149 | the chosen doctor is always in the pool of ten |
| Triage.AssignDoctorRotates | backend/unified_api.py:137-149 | critical patients get the first doctor; each other level rotates through its own band of three on consecutive arrivals, with period three |
| Triage.TimeAgo | backend/unified_api.py:123-132 | "sec" exactly below 60 s, "min" below 3600 s with the whole minutes elapsed, otherwise "hr" with the whole hours elapsed |
| Triage.AdmitFresh | backend/unified_api.py:511-524 | a new entry with the next arrival number keeps arrivals distinct and adds exactly that number |
| Triage.DischargeOne | backend/unified_api.py:544-552 | removing the popped entry keeps arrivals distinct and removes exactly its number |
| Triage.CountLabelsSum | backend/unified_api.py:566-573 | the four label counts sum to the queue length |
| Triage.Insert | backend/unified_api.py:480 | inserting into a sorted queue keeps it sorted and adds exactly that entry |
| Triage.Sorted | backend/unified_api.py:480 | `sorted(patient_queue)` is ordered by `(priority, arrival)` and is a permutation of the queue |
| Triage.Rows | backend/unified_api.py:477-497 | one row per queued patient, taken from `sorted(patient_queue)` (ordered by `(priority, arrival)` and a permutation of the queue) and numbered from 1; each row carries the arrival as id, the name, the age, the severity label, the title-cased symptom, the time since admission and the doctor, with "Unassigned" or no elapsed time for a missing side-table entry |
| Triage.RowOf | backend/unified_api.py:483-495 | a row carries the entry's arrival as its id, the patient's name and age, the severity label of the priority, the title-cased symptom, the time since the recorded admission (none elapsed when none is recorded), the assigned doctor or "Unassigned", and the given queue position |
| Triage.TriageDesk.constructor | backend/unified_api.py:83-86 | an empty queue, empty side tables and counter 0, which are valid |
| Triage.TriageDesk.AddPatient | backend/unified_api.py:499-536 | an unknown normalised symptom gives 400 and no change; otherwise the counter is bumped, the arrival is timed and given its doctor, the entry is pushed, and the admission is reported |
| Triage.TriageDesk.Admit | backend/unified_api.py:510-524 | the state change of a successful admission, with side tables keyed by the new arrival |
| Triage.TriageDesk.TreatPatient | backend/unified_api.py:538-563 | an empty queue gives 400 and no change; otherwise the least `(priority, arrival)` is removed from the queue and from both side tables |
| Triage.TriageDesk.GetStats | backend/unified_api.py:565-573 | the counts per label, and their sum is the queue length |
| Triage.TriageDesk.Patients | backend/unified_api.py:477-497 | one row per queued patient; row `k` describes the `k`-th entry of the sorted queue at position `k + 1`, with all its fields as in `Triage.Rows` |
| Triage.TriageDesk.ClearQueue | backend/unified_api.py:586-594 | reports the old length and empties the queue, both tables and the counter |
| Navigation.WithVertex | backend/unified_api.py:174-176 | the location exists afterwards, no other location appears, and no edge changes |
| Navigation.WithVertexKeepsShape | backend/unified_api.py:174-176 | adding a location keeps every neighbour a location and the graph undirected |
| Navigation.WithEdgeList | backend/unified_api.py:178-181 | when both ends exist, each end's adjacency list gets the other appended (a self-loop twice) and other lists are unchanged |
| Navigation.WithEdgeEdges | backend/unified_api.py:178-181 | the edges afterwards are the old ones plus the new edge and its reverse, added only when both ends exist |
| Navigation.WithEdgeClosed | backend/unified_api.py:178-181 | adding a corridor keeps every neighbour a location |
| Navigation.WithEdgeSymmetric | backend/unified_api.py:178-181 | adding a corridor keeps the graph undirected |
| Navigation.WalkNodesAreEdges | backend/unified_api.py:215-220 | consecutive locations of a walk are joined by an edge of the step's weight |
| Navigation.FrontierBound | backend/unified_api.py:191-206 | when the settled nodes' edges are relaxed, a walk leaving the settled set costs at least the frontier minimum minus its start's distance; this is the key step of Dijkstra's correctness |
| Navigation.PopLeast | backend/unified_api.py:192 | `heappop` on the frontier: returns the least `(distance, node)` pair and removes exactly it |
| Navigation.RelaxAll | backend/unified_api.py:200-206 | relaxing every edge out of the settled node keeps the Dijkstra invariant and leaves all settled nodes relaxed |
| Navigation.RelaxInv | backend/unified_api.py:203-206 | lowering a neighbour's distance through a settled node, recording the predecessor and pushing the new pair keeps the Dijkstra invariant, and the neighbour was not settled |
| Navigation.Visit | backend/unified_api.py:192-206 | settling a popped node whose distance is current keeps the invariant and adds exactly that node to the settled set |
| Navigation.Settle | backend/unified_api.py:192-198 | settling the popped node keeps the invariant with that node ranked next, and every settled distance is at most the popped one |
| Navigation.Reconstruct | backend/unified_api.py:208-222 | following the predecessors yields a walk from start to end whose cost is the end's distance; its path lists that walk's locations, or is empty when start is end |
| Navigation.Step | backend/unified_api.py:192-206 | one pass of the loop keeps the Dijkstra invariant; when the popped location is the end, its distance is no greater than any walk to it; otherwise the pass settles a new location or shortens the queue |
| Navigation.Search | backend/unified_api.py:191-206 | the loop stops having reached `end` exactly when `end` received a distance, and that distance is no greater than the cost of any walk to `end`; otherwise the queue is empty with the invariant intact |
| Navigation.Dijkstra | backend/unified_api.py:183-222 | `(None, [])` exactly when the end is unreachable; otherwise the distance is no greater than any walk's cost and the path is a walk of exactly that cost (empty when start is end) |
| Navigation.ShortestRouteShape | backend/unified_api.py:209-222 | a shortest route starts at start, ends at end, and joins consecutive locations by corridors |
| Navigation.HospitalMap.constructor | backend/unified_api.py:154 | the empty graph, which is closed and undirected |
| Navigation.HospitalMap.AddVertex | backend/unified_api.py:174-176 | the graph becomes the one with the location added; closed and undirected are kept |
| Navigation.HospitalMap.AddEdge | backend/unified_api.py:178-181 | the graph becomes the one with the corridor added; closed and undirected are kept |
| Navigation.HospitalMap.AddVertices | backend/unified_api.py:247-248 | afterwards the locations are the old ones plus the listed ones, with the edges unchanged |
| Navigation.HospitalMap.AddEdges | backend/unified_api.py:269-270 | the locations are unchanged, and the edges are exactly the old ones plus every listed corridor whose ends both exist, in both directions |
| Navigation.HospitalMap.Initialize | backend/unified_api.py:240-270 | the locations are exactly the eleven codes, and the edges are exactly the sixteen corridors in both directions, with no other edge |
| Navigation.HospitalMap.FindPath | backend/unified_api.py:610-657 | an unknown start, then an unknown end, gives 400 with its message; equal ends give distance 0 and path `[start]`; otherwise the route is valid exactly when the end is reachable, and then it is a shortest route |
| Navigation.EdgeEndsAreLocations | backend/unified_api.py:245-267 | every corridor joins two of the eleven locations |
| Appointments.AsWrittenId | backend/unified_api.py:680 | `str(len(d) + 1)` is all digits with value `len(d) + 1` |
| Appointments.AsWrittenIdCollides | backend/unified_api.py:680-687 | after a deletion the as-written id can be in use, and the new record then overwrites the existing one |
| Appointments.MaxId | backend/unified_api.py:680 | no all-digit id is larger |
| Appointments.NextId | backend/unified_api.py:680 | the corrected id is never an id already in use |
| Appointments.NextIdAgrees | backend/unified_api.py:680 | while the ids are "1", "2", … in order (nothing deleted), the corrected id equals `str(len(d) + 1)` |
| Appointments.FreeSlots | backend/unified_api.py:740 | exactly `end - start` slots, keyed `start .. end - 1` in ascending order, all free |
| Appointments.InSlots | backend/unified_api.py:760-761 | with distinct keys, a pair is among the slots exactly when that hour maps to that value |
| Appointments.BookThenVisitRestores | backend/unified_api.py:800-852 | booking a free slot and then recording its visit leaves the slots as they were |
| Appointments.PutKeepsAscending | backend/unified_api.py:800-852 | writing into an existing hour keeps the hours in order and their number the same |
| Appointments.FreeTimes | backend/unified_api.py:760 | exactly the free hours |
| Appointments.BookedSlots | backend/unified_api.py:761 | exactly the booked hours, each with its patient |
| Appointments.FreePlusBooked | backend/unified_api.py:760-769 | available and booked together account for every slot |
| Appointments.Insert | backend/unified_api.py:767 | inserting into a sorted list keeps it sorted and adds exactly that hour |
| Appointments.SortInts | backend/unified_api.py:767 | `sorted(...)` is sorted and a permutation of its input |
| Appointments.ScheduleOf | backend/unified_api.py:759-770 | `available_slots` is sorted and holds exactly the free hours; `booked_slots` holds exactly the booked hours with their patients; available plus booked equals `total_slots`, which is the number of slots |
| Appointments.Registry.constructor | backend/unified_api.py:290-296 | the empty registry, which is valid |
| Appointments.Registry.AddPatient | backend/unified_api.py:676-695 | appends the patient with an empty history under the corrected id, which was not in use |
| Appointments.Registry.PatientHistory | backend/unified_api.py:697-709 | 404 "Patient not found" exactly for an unknown id, else the patient's name and history |
| Appointments.Registry.AddDoctor | backend/unified_api.py:725-749 | `start >= end` gives 400 "End time must be after start time" with no change; otherwise appends the doctor with `end - start` free slots under the corrected id |
| Appointments.Registry.GetDoctorSchedule | backend/unified_api.py:751-770 | 404 "Doctor not found" exactly for an unknown id, else that doctor's schedule |
| Appointments.Registry.Book | backend/unified_api.py:772-813 | checks in order unknown doctor (404), unknown patient (404), hour not a slot (400), slot booked (400), each with no change; otherwise sets only that slot to the patient and reports the booking |
| Appointments.Registry.RecordVisit | backend/unified_api.py:815-860 | checks in order unknown doctor (404), hour not a slot (400), free slot (400), booked patient no longer registered (404), each with no change; otherwise appends exactly one visit to that patient's history and frees only that slot |
| Appointments.Registry.DeletePatient | backend/unified_api.py:862-874 | 404 and no change for an unknown id; otherwise removes exactly that patient and reports the name |
| Appointments.Registry.DeleteDoctor | backend/unified_api.py:876-888 | 404 and no change for an unknown id; otherwise removes exactly that doctor and reports the name |
| PharmacyView.StockBadge | src/pages/PharmacyManagement.jsx:233-238 | "Out of Stock" exactly at 0, "Critical" exactly below 5 otherwise, "Low Stock" exactly for 5 to 19, "In Stock" exactly from 20 |
| PharmacyView.StockBadgeMonotone | src/pages/PharmacyManagement.jsx:233-238 | over non-negative stock, more units never give a more severe badge |
| PharmacyView.ExpiryStatus | src/pages/PharmacyManagement.jsx:245-248 | "Expired" exactly below 0 days, "Expiring Soon" exactly for 0 to 29, "Check Date" exactly for 30 to 89, "Valid" exactly from 90 |
| PharmacyView.ExpiryStatusMonotone | src/pages/PharmacyManagement.jsx:245-248 | a later expiry never gives a more severe status |
| PharmacyView.Member | src/pages/PharmacyManagement.jsx:47 | a property is undefined exactly when the object has no member of that name; otherwise it is the value of the last member of that name, the one `JSON.parse` keeps |
| PharmacyView.Filter | src/pages/PharmacyManagement.jsx:47 | keeps exactly the entries that are truthy, have a truthy `name` and a numeric `stock` |
| PharmacyView.FilterAppend | src/pages/PharmacyManagement.jsx:47 | filtering distributes over concatenation, so the kept entries stay in their original order |
| PharmacyView.FilterIdempotent | src/pages/PharmacyManagement.jsx:47 | filtering the kept list again changes nothing |
| PharmacyView.ValidMedicines | src/pages/PharmacyManagement.jsx:46-48 | a non-array response gives the empty list; an array gives exactly its well-formed entries, each an object with a numeric `stock` |

## Left out

- JSON file persistence (`init_*`, `load_*`, `save_*`), FastAPI routing, CORS, Pydantic validation, and the root and health endpoints. The state is in memory.
- Clocks. `time.time()` and `datetime.now()` become parameters: `now` in microseconds for the pharmacy, whole seconds for triage, `elapsed` in seconds, and `today` as the visit date string.
- Float arithmetic. Prices are `real` with no rounding. Graph weights are whole numbers, as in the source's edge list. The `inf` sentinel is `Option`.
- `get_waiting_minutes`, `estimatedTime`, `round(distance, 2)`, `days_until_expiry`, and the `Math.ceil` day difference in `getExpiryStatus`. These are all float or clock arithmetic; the expiry status takes the whole day difference as its input.
- `strptime` parsing. An expiry is a day number, or `None` where parsing would raise. Billing turns `None` into a 500.
- The date and time strings of purchases. The purchase history records medicine, serial and price.
- `pathNames` and `location_data` in `find_path`. These are display names only.
- `get_symptoms`, `get_locations`, `get_all_patients`, `get_all_doctors`, `clear_inventory` and `clear_billing`. These are listings or whole-file resets with no logic beyond a copy.
- Navigation.Dijkstra: the frontier is a list with `heappop`'s contract (the least `(distance, node)` pair), not a binary heap layout. The triage heap is where the heap layout is modelled.
- Navigation.Dijkstra: distances are proved correct for non-negative weights only. The source's graph has only positive weights.
- Navigation.Dijkstra: the search loop is the method `Search`, and its body is split into the helper methods `Visit` and `RelaxAll` to keep each proof small. The steps are the same.
- Triage.SeverityLevels: the symptom table's keys are not proved distinct. Lookup takes the first match, which is what a Python dict literal with distinct keys gives.
- Appointments: slots are keyed by the hour as an integer rather than the string `str(t)`, justified by `Text.IntToStringInjective`. A slot key that is not an integer's decimal form cannot arise, because slots are only created by `add_doctor`.
- Appointments.Registry.AddPatient and Appointments.Registry.AddDoctor: the model uses the corrected id (see Findings), not `str(len(d) + 1)`.
- Appointments.Registry.DeletePatient: a slot booked for a deleted patient keeps the id, as in the source. The resulting 404 on the visit is modelled in `RecordVisit`.
- RowOf (Triage.RowOf, Triage.Rows, Triage.TriageDesk.Patients): admission times and `now` are whole seconds, while the source stores the float `time.time()` and truncates the difference with `int(...)`. That truncation of a fractional difference is not modelled: admitted at 10.9 and listed at 70.1, the source shows "59 sec ago", while the model, given 10 and 70, shows "1 min ago".
- Normalise (Triage.Normalise): lower-casing and stripping cover ASCII letters and ASCII whitespace (with \x1c to \x1f) only. Python's Unicode case mappings and Unicode whitespace such as U+00A0 are not modelled, so such a symptom is not recognised here.
- AddPatient (Triage.TriageDesk.AddPatient): because `Triage.Normalise` is ASCII-only, a symptom that Python's `.lower().strip()` maps onto a table key only through Unicode rules (for example "stroke" followed by U+00A0) gives the 400 "Unknown symptom …" error here.
- FindPath (Navigation.HospitalMap.FindPath): location ids are normalised with ASCII-only `Upper(Strip(...))`. An id that Python's `.strip().upper()` maps onto a location only through Unicode rules (for example "ſur" or "ıwa") gives 400 here.
- PharmacyView.Truthy: the JavaScript number NaN (falsy) is not represented.
- `AppointmentScheduling.jsx` and the rendering, toasts and fetch calls of `PharmacyManagement.jsx`.

## Findings

| source | as written | input that shows it | evidently intended | confidence | as-written member | corrected member |
|---|---|---|---|---|---|---|
| backend/unified_api.py:680 | a new patient gets id `str(len(d) + 1)`, and line 735 does the same for doctors | with patients "1" and "2", delete "1": the next new patient gets id "2" and overwrites patient "2" | a new record gets an id that is not in use | high (not executed) | Appointments.AsWrittenIdCollides | Appointments.NextId |
