/** The two factory entry points: the file-backed data-access object built
    from the current date and what storage holds, and the in-memory one. */
module Daos {
  import opened Entities
  import opened Week
  import opened MedicineStore
  import opened Persistence

  /** An in-memory store for `date`: no medicines, empty checklist. */
  function GetInMemoryDao(date: DayOfWeek): (s: Store)
    ensures DayOf(s.today.day) == date
    ensures |s.medicines| == 0 && |s.today.checklist| == 0
    ensures Valid(s)
  {
    Empty(DayIndexOf(date))
  }

  /** A file-backed store for `date`, loaded and reconciled from `stored`. */
  function GetMedicineDao(date: DayOfWeek, stored: Stored): (s: Store)
    ensures DayOf(s.today.day) == date
    ensures stored.Nothing? ==> s == GetInMemoryDao(date)
    ensures stored.Persisted? && stored.doc.today.dayInt != DayIndexOf(date) ==> Valid(s)
  {
    Load(DayIndexOf(date), stored)
  }

  /** With nothing in storage, the document written at start-up holds the
      day and two empty arrays. */
  lemma EmptyStorageWritesEmptyDocument(date: DayOfWeek)
    ensures Save(GetMedicineDao(date, Nothing), [], []) == Document(TodayRecord(DayIndexOf(date), []), [])
  {
  }

  /** Restarting on the same day gives back the store as it was. */
  lemma RestartSameDay(s: Store, checklistOrder: seq<string>, medicineOrder: seq<string>)
    requires KeyedByName(s)
    requires Enumerates(checklistOrder, s.today.checklist.Keys)
    requires Enumerates(medicineOrder, s.medicines.Keys)
    ensures GetMedicineDao(DayOf(s.today.day), Persisted(Save(s, checklistOrder, medicineOrder))) == s
  {
    DayIndexBijective();
    SaveLoadRoundTrip(s, checklistOrder, medicineOrder);
  }

  /** Restarting on another day keeps the medicines and rebuilds the
      checklist to exactly the medicines scheduled that day, each at 0. */
  lemma RestartOtherDay(s: Store, checklistOrder: seq<string>, medicineOrder: seq<string>, date: DayOfWeek)
    requires KeyedByName(s)
    requires Enumerates(checklistOrder, s.today.checklist.Keys)
    requires Enumerates(medicineOrder, s.medicines.Keys)
    requires DayIndexOf(date) != s.today.day
    ensures var r := GetMedicineDao(date, Persisted(Save(s, checklistOrder, medicineOrder)));
      && r.medicines == s.medicines
      && (forall n :: n in r.today.checklist <==> n in s.medicines && ScheduledOn(s.medicines[n], DayIndexOf(date)))
      && (forall n :: n in r.today.checklist ==> r.today.checklist[n] == 0)
  {
    var doc := Save(s, checklistOrder, medicineOrder);
    LoadEnumeratedMedicines(s.medicines, medicineOrder, doc.medicines);
  }
}
