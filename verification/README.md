# MedBay medicine store — a Dafny model

MedBay keeps a user's medicines and a checklist of the doses taken today. Both
of its data-access objects, the file-backed `MedicineDAO` and the
`InMemoryDAO`, hold the same state: a map from medicine name to `Medicine`
(id, description, a seven-slot weekly schedule indexed Sunday = 0 … Saturday
= 6, and a `Dose` with size, unit and inventory), and a `Today` checklist
(medicine name to doses taken, plus the day index). `MedicineDAO` also writes
the whole state to a document after every mutation and, at start-up, reads it
back and reconciles it with the current day: on the same weekday the stored
checklist is restored as it was; on another weekday it is rebuilt to exactly
the medicines scheduled that day, each at 0.

This project models that state as an immutable `Store` and each operation as
a pure transition:

- `entities.dfy` (`Entities`) — `Dose`, `Medicine`, `Today` and the medicine
  factory, with the operations the data-access objects call on them.
- `week.dfy` (`Week`) — the day-of-week to schedule-index mapping.
- `store.dfy` (`MedicineStore`) — save, remove, take, undo and exists, shared
  by both data-access objects, and the store invariant.
- `idlist.dfy` (`IdList`) — the `"+"`-joined id string, with splitting as its
  inverse.
- `persistence.dfy` (`Persistence`) — the persisted document as an abstract
  record, writing it, and loading it with the day-rollover reconciliation.
- `history.dfy` (`History`) — sequences of operations: when a name exists,
  the invariant over any run, and the write-through round trip.
- `daos.dfy` (`Daos`) — the two factory entry points, `getMedicineDAO` and
  `getInMemoryDAO`.

Hash-map iteration order is not fixed by the program, so every operation
whose result depends on that order — writing the document and building the
id string — takes the order as a parameter (`Enumerates(order, keys)`: each
key exactly once) and every property is proved for all orders. The rollover
loop over the medicines (`MedicineDAO.java:69-73`) is written as a map
comprehension without an order: its `add(name, 0)` calls all write the value
0, so they commute even when two medicines carry the same name.

Four behaviours of the code are worth stating, because a reader might expect
otherwise:

- The stronger invariant "a medicine has a checklist entry iff it is
  scheduled today" does not hold. Only "every checklist entry belongs to a
  stored medicine" does: re-saving a medicine under its name with a schedule
  that is zero today leaves its old entry in place (`MedicineDAO.java:136`).
  `MedicineStore.ResaveUnscheduledLeavesStaleEntry` proves this for every
  store that met the stronger invariant.
- Re-saving a medicine that is scheduled today does not keep its
  in-progress count: the entry is re-added at 0 (`MedicineDAO.java:137`);
  `MedicineStore.ResaveResetsTakenCount` states it.
- Taking or undoing a name that is not stored dereferences a missing map
  entry (`MedicineDAO.java:157`, `InMemoryDAO.java:53`). The model makes this
  an explicit `UnknownMedicine` result that leaves the store unchanged.
- Only the weekday index is written (`MedicineDAO.java:84`) and compared on
  loading (`MedicineDAO.java:62`), not the date. A restart on the same
  weekday one or more weeks later therefore restores the old checklist
  counts instead of starting the day afresh. `Daos.RestartSameDay` states
  this: its premise is only that the weekday matches.

## Model

| member | source | states |
|---|---|---|
| `Week.DayIndexOf` | src/data_access/MedicineDAO.java:212-223 | SUNDAY … SATURDAY map to 0 … 6 and the index maps back to the same day, so the store's day is always a valid schedule index |
| `Week.DayIndexBijective` | src/data_access/InMemoryDAO.java:73-83 | the day mapping is a bijection between the seven days and 0..6 |
| `Daos.GetInMemoryDao` | src/data_access/InMemoryDAO.java:72-85 | a new in-memory store has no medicines, an empty checklist, the day of the given date, and satisfies the store invariant |
| `Daos.GetMedicineDao` | src/data_access/MedicineDAO.java:212-229 | a new file-backed store has the day of the given date; with nothing stored it equals the empty in-memory store; after a rollover it satisfies the store invariant |
| `Daos.EmptyStorageWritesEmptyDocument` | src/data_access/MedicineDAO.java:38-39 | with empty storage the document written at start-up holds the day and two empty arrays |
| `Daos.RestartSameDay` | src/data_access/MedicineDAO.java:62-67 | restarting on the weekday the document was written, whatever the week, gives back the store exactly, for any store that holds each medicine under its own name |
| `Daos.RestartOtherDay` | src/data_access/MedicineDAO.java:68-73 | for any store holding each medicine under its own name, restarting on another weekday keeps the medicines and rebuilds the checklist to exactly the medicines scheduled that day, each at 0 |
| `Entities.TakeDose` | src/data_access/MedicineDAO.java:157 | taking a dose lowers the inventory by one and keeps size and unit |
| `Entities.UndoTakeDose` | src/data_access/MedicineDAO.java:167 | undoing a dose raises the inventory by one and keeps size and unit |
| `Entities.DoseTakeUndoInverse` | src/data_access/InMemoryDAO.java:53-58 | taking and undoing a dose are mutually inverse |
| `Entities.Add` | src/data_access/MedicineDAO.java:66 | the checklist entry for the name is inserted or overwritten with the count; every other entry and the day are unchanged |
| `Entities.Remove` | src/data_access/MedicineDAO.java:148 | the name's entry is gone, every other entry is unchanged, and an absent name leaves the checklist as it was |
| `Entities.Take` | src/data_access/MedicineDAO.java:158 | the name's count rises by one and no other entry changes |
| `Entities.Untake` | src/data_access/MedicineDAO.java:168 | the name's count falls by one and no other entry changes |
| `Entities.TodayTakeUntakeInverse` | src/data_access/InMemoryDAO.java:54-59 | ticking a name off and unticking it are mutually inverse on the checklist |
| `MedicineStore.SaveMedicine` | src/data_access/MedicineDAO.java:134-140 | the medicine is stored under its name, other medicines are unchanged; if it is scheduled today its checklist entry becomes 0 and no other entry changes, otherwise the checklist is untouched |
| `MedicineStore.RemoveMedicine` | src/data_access/MedicineDAO.java:146-150 | the name leaves both maps, nothing else changes, and an absent name leaves the store as it was |
| `MedicineStore.TakeMedicine` | src/data_access/MedicineDAO.java:156-160 | for a name in both maps the inventory falls by one, the count rises by one, and nothing else changes; otherwise the result is `UnknownMedicine` |
| `MedicineStore.UndoTakeMedicine` | src/data_access/MedicineDAO.java:166-170 | for a name in both maps the inventory rises by one, the count falls by one, and nothing else changes; otherwise the result is `UnknownMedicine` |
| `MedicineStore.TakeUndoInverse` | src/data_access/InMemoryDAO.java:52-60 | undoing a take restores the store exactly, and so does taking after an undo |
| `MedicineStore.SavePreservesValid` | src/data_access/InMemoryDAO.java:25-30 | saving keeps every checklist entry backed by a medicine and every medicine under its own name |
| `MedicineStore.RemovePreservesValid` | src/data_access/InMemoryDAO.java:33-36 | removing keeps the store invariant |
| `MedicineStore.TakeUndoPreserveValid` | src/data_access/InMemoryDAO.java:52-60 | a successful take or undo keeps the store invariant |
| `MedicineStore.ResaveResetsTakenCount` | src/data_access/MedicineDAO.java:136-137 | re-saving a medicine scheduled today resets a positive count to 0 |
| `MedicineStore.ResaveUnscheduledLeavesStaleEntry` | src/data_access/InMemoryDAO.java:25-30 | every store whose checklist matches the schedules exactly stops doing so when a medicine scheduled today is re-saved with a schedule that is zero today |
| `MedicineStore.StaleEntryExample` | src/data_access/MedicineDAO.java:134-138 | a concrete store (one Monday medicine, re-saved as a Tuesday one) meets the requirements of the stale-entry lemma |
| `IdList.IdListString` | src/data_access/MedicineDAO.java:177-186 | the result is empty for no medicines, otherwise the ids joined by "+"; splitting it at "+" gives back the ids and it holds n − 1 separators when no id contains "+"; it is empty only for no medicines or one empty id |
| `IdList.SplitJoin` | src/data_access/InMemoryDAO.java:62-71 | splitting a join of one or more ids without "+" gives back the ids |
| `IdList.JoinSeparatorCount` | src/data_access/InMemoryDAO.java:66-68 | n ids without "+" are joined with exactly n − 1 separators (the builder's final "+" is dropped) |
| `IdList.JoinEmpty` | src/data_access/InMemoryDAO.java:64-69 | the join is empty only for no ids or a single empty id |
| `Entities.CreateMedicine` | src/data_access/MedicineDAO.java:59-60 | the factory puts each raw field into its slot: name, id, description, a dose of the given size, unit and inventory, and the weekly schedule as given, so the medicine is scheduled on a weekday iff that slot is nonzero |
| `MedicineStore.Exists` | src/data_access/MedicineDAO.java:126-128 | a name exists iff it is a key of the medicines map, and in a store that holds each medicine under its own name the medicine found carries that name; `History.ExistsIffSavedAndNotRemoved` relates it to the operations that built the store |
| `Persistence.DecodeMedicine` | src/data_access/MedicineDAO.java:48-61 | a record is read into a medicine with `sun` … `sat` in schedule slots 0 … 6 and the dose built from `doseSize`, `doseUnit` and `doseInventory`; `Persistence.EncodeMedicine` is its inverse |
| `Persistence.Rollover` | src/data_access/MedicineDAO.java:68-73 | on a day change, every medicine scheduled on the checklist's day gets an entry at 0 under its own name (not the key it is held under), entries for names no scheduled medicine carries are kept unchanged, no other entry appears, and the day is kept |
| `Persistence.EncodeMedicine` | src/data_access/MedicineDAO.java:97-109 | a medicine written field by field, `sun` … `sat` from slots 0 … 6, decodes back to the same medicine |
| `Persistence.EncodeDecode` | src/data_access/MedicineDAO.java:49-60 | reading a record (slots 0 … 6 from `sun` … `sat`) and writing it again gives the same record |
| `Persistence.Save` | src/data_access/MedicineDAO.java:80-113 | the document holds the day, one (name, taken) pair per checklist entry with distinct names and the stored counts, and one record per medicine decoding to it |
| `Persistence.LoadMedicines` | src/data_access/MedicineDAO.java:47-61 | the loaded medicines are keyed exactly by the record names and each is held under its own name |
| `Persistence.LoadMedicinesLast` | src/data_access/MedicineDAO.java:59-61 | the medicine held under a name is the decoding of the last record carrying it |
| `Persistence.Restore` | src/data_access/MedicineDAO.java:63-67 | restoring adds exactly the names of the persisted pairs to the checklist |
| `Persistence.RestoreLast` | src/data_access/MedicineDAO.java:63-67 | the count restored for a name is that of the last pair carrying it |
| `Persistence.Load` | src/data_access/MedicineDAO.java:33-79 | empty storage gives an empty store; on the stored day the checklist keys are the persisted names; on another day the checklist is exactly the loaded medicines scheduled today, each at 0 |
| `Persistence.LoadSameDay` | src/data_access/MedicineDAO.java:62-67 | on the stored day, the last pair for each name is restored with its count unchanged (a later pair for the same name overwrites an earlier one) |
| `Persistence.RolloverIgnoresPersistedChecklist` | src/data_access/MedicineDAO.java:68-73 | on another day two documents with the same medicines load to the same store, whatever checklist they hold |
| `Persistence.LoadValid` | src/data_access/MedicineDAO.java:62-73 | a loaded store satisfies the store invariant unless a same-day document lists a name without a record |
| `Persistence.LoadEnumeratedMedicines` | src/data_access/MedicineDAO.java:47-61 | records decoding to a name-keyed map, in any order, load back to exactly that map |
| `Persistence.RestoreEnumeratedChecklist` | src/data_access/MedicineDAO.java:62-67 | distinct-name pairs that agree with and cover a checklist restore exactly that checklist |
| `Persistence.SaveLoadRoundTrip` | src/data_access/MedicineDAO.java:47-109 | writing a store and loading it on the same day gives the identical store, for every iteration order |
| `History.ExistsIffSavedAndNotRemoved` | src/data_access/InMemoryDAO.java:20-36 | from an empty store, a name exists iff some operation saved it and no later one removed it |
| `History.RunPreservesValid` | src/data_access/InMemoryDAO.java:25-60 | every sequence of saves, removes, takes and undoes keeps the store invariant and the day |
| `History.WriteThroughReloads` | src/data_access/MedicineDAO.java:134-170 | the document written after any sequence of operations, from any store holding each medicine under its own name, reloads on the same day to the store they reached |
| `History.RunPreservesKeyedByName` | src/data_access/MedicineDAO.java:135 | every sequence of operations keeps each medicine under its own name, and the day |

## Left out

- File I/O (`Files.readAllBytes`, `FileWriter`, the zero-length check) is replaced by the `Stored` datatype: nothing, or a document. Writing is the `Save` function; a write failure is not modelled.
- JSON text, its parsing and printing, and the casts on the fields read back are not modelled; a malformed document, which makes the constructor throw, is therefore not modelled either.
- Hash-map iteration order is a parameter of `Save` and `IdListString`, not a fixed order.
- `Persistence.Load`: the stored day is compared with `==` on boxed integers (`MedicineDAO.java:62`); the model compares integers.
- `MedicineStore.TakeMedicine`: on a name not in the medicines the source throws; the model returns `UnknownMedicine` and changes nothing. A name held as a medicine but missing from the checklist (for example a medicine whose schedule is zero today) is also reported as `UnknownMedicine` with the store unchanged, because the checklist entity's behaviour there is not part of this model. The source, however, has already lowered that medicine's inventory in memory (`MedicineDAO.java:157`, `InMemoryDAO.java:53`) before `today.take` runs, and the next successful mutation's write-through saves the lowered inventory; the model does not reproduce that partial update.
- `MedicineStore.UndoTakeMedicine`: the same as for `TakeMedicine`, mirrored: the source has already raised the inventory (`MedicineDAO.java:167`, `InMemoryDAO.java:58`) before `today.untake` runs, and the model does not reproduce that partial update.
- `History.Step`: a take or undo that the model reports as `UnknownMedicine` keeps the store, so runs do not reproduce the partial inventory update described above.
- `Entities.TakeDose`: inventory and taken counts are unbounded integers; the 32-bit wrap-around of Java's `Integer` is not modelled.
- The entity classes' own code (`Medicine`, `Dose`, `Today`, `MedicineFactory`) is not modelled. `Today.add`/`remove`/`take`/`untake` and `Dose.takeDose`/`undoTakeDose` are given the behaviour the data-access objects rely on, and a new `Today` is taken to start with an empty checklist.
- The accessors `getTodayDay`, `getTodayChecklist` and `getUserMedicines` are the fields `today.day`, `today.checklist` and `medicines` of `Store`.
- Aliasing is not modelled. `getTodayChecklist` and `getUserMedicines` return the data-access object's own mutable maps (`MedicineDAO.java:198`, `MedicineDAO.java:204`, `InMemoryDAO.java:44`, `InMemoryDAO.java:47-49`), and take and undo change the stored `Medicine`'s `Dose` in place (`MedicineDAO.java:157`, `MedicineDAO.java:167`, `InMemoryDAO.java:53`, `InMemoryDAO.java:58`). The model's values are immutable, so it assumes callers change neither a returned map nor a `Medicine` they kept after saving it.
- `LocalDate` is replaced by the `DayOfWeek` datatype; the drug-lookup service and the Swing user interface (`Main.java`) are not modelled.
