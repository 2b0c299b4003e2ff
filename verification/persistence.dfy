/** The persisted document of the file-backed data-access object, as an
    abstract record (no JSON text): writing a store out, and loading one back
    with the day-rollover reconciliation. */
module Persistence {
  import opened Entities
  import opened MedicineStore

  datatype TakenRecord = TakenRecord(name: string, taken: int)

  /** One medicine, flattened; `sun` … `sat` hold schedule slots 0 … 6. */
  datatype MedicineRecord = MedicineRecord(
    name: string, doseSize: int, doseInventory: int, doseUnit: string,
    sun: int, mon: int, tue: int, wed: int, thu: int, fri: int, sat: int,
    description: string, id: string)

  datatype TodayRecord = TodayRecord(dayInt: int, todayArray: seq<TakenRecord>)

  datatype Document = Document(today: TodayRecord, medicines: seq<MedicineRecord>)

  /** What the storage location holds at start-up: nothing (a missing or
      zero-length file), or a document. */
  datatype Stored = Nothing | Persisted(doc: Document)

  // ------------------------------------------------------ medicine records

  /** Reads a record back through the medicine factory. */
  function DecodeMedicine(r: MedicineRecord): (m: Medicine)
    ensures m.name == r.name && m.id == r.id && m.description == r.description
    ensures m.dose == Dose(r.doseSize, r.doseUnit, r.doseInventory)
    ensures m.schedule[0] == r.sun && m.schedule[1] == r.mon && m.schedule[2] == r.tue
    ensures m.schedule[3] == r.wed && m.schedule[4] == r.thu && m.schedule[5] == r.fri
    ensures m.schedule[6] == r.sat
  {
    CreateMedicine(r.name, r.doseSize, r.doseInventory, r.doseUnit,
      [r.sun, r.mon, r.tue, r.wed, r.thu, r.fri, r.sat], r.description, r.id)
  }

  /** Writes a medicine field by field; decoding gives the medicine back. */
  function EncodeMedicine(m: Medicine): (r: MedicineRecord)
    ensures DecodeMedicine(r) == m
    ensures r.name == m.name
  {
    var w := m.schedule;
    assert [w[0], w[1], w[2], w[3], w[4], w[5], w[6]] == w;
    MedicineRecord(m.name, m.dose.size, m.dose.inventory, m.dose.unit,
      w[0], w[1], w[2], w[3], w[4], w[5], w[6], m.description, m.id)
  }

  /** Encoding a decoded record gives the record back. */
  lemma EncodeDecode(r: MedicineRecord)
    ensures EncodeMedicine(DecodeMedicine(r)) == r
  {
  }

  // ----------------------------------------------------------------- save

  /** The document written after every mutation. `checklistOrder` and
      `medicineOrder` are the hash maps' iteration orders. */
  function Save(s: Store, checklistOrder: seq<string>, medicineOrder: seq<string>): (doc: Document)
    requires Enumerates(checklistOrder, s.today.checklist.Keys)
    requires Enumerates(medicineOrder, s.medicines.Keys)
    ensures doc.today.dayInt == s.today.day
    ensures var a := doc.today.todayArray;
      && (forall i :: 0 <= i < |a| ==> a[i].name in s.today.checklist && a[i].taken == s.today.checklist[a[i].name])
      && (forall i, j :: 0 <= i < j < |a| ==> a[i].name != a[j].name)
      && (forall n :: n in s.today.checklist ==> exists i :: 0 <= i < |a| && a[i].name == n)
    ensures var recs := doc.medicines;
      && |recs| == |medicineOrder|
      && (forall i :: 0 <= i < |recs| ==> DecodeMedicine(recs[i]) == s.medicines[medicineOrder[i]])
  {
    var a := seq(|checklistOrder|, i requires 0 <= i < |checklistOrder| =>
      TakenRecord(checklistOrder[i], s.today.checklist[checklistOrder[i]]));
    var recs := seq(|medicineOrder|, i requires 0 <= i < |medicineOrder| =>
      EncodeMedicine(s.medicines[medicineOrder[i]]));
    assert forall n :: n in s.today.checklist ==> exists i :: 0 <= i < |a| && a[i].name == n by {
      forall n | n in s.today.checklist
        ensures exists i :: 0 <= i < |a| && a[i].name == n
      {
        var i :| 0 <= i < |checklistOrder| && checklistOrder[i] == n;
        assert a[i].name == n;
      }
    }
    Document(TodayRecord(s.today.day, a), recs)
  }

  // ----------------------------------------------------------------- load

  /** Record `i` is the last one in `recs` carrying its name. */
  ghost predicate LastMedicineNamed(recs: seq<MedicineRecord>, i: int)
    requires 0 <= i < |recs|
  {
    forall j :: i < j < |recs| ==> recs[j].name != recs[i].name
  }

  ghost predicate LastEntryNamed(entries: seq<TakenRecord>, i: int)
    requires 0 <= i < |entries|
  {
    forall j :: i < j < |entries| ==> entries[j].name != entries[i].name
  }

  /** The names the records carry. */
  function MedicineNames(recs: seq<MedicineRecord>): set<string>
    decreases |recs|
  {
    if |recs| == 0 then {} else MedicineNames(recs[..|recs| - 1]) + {recs[|recs| - 1].name}
  }

  function EntryNames(entries: seq<TakenRecord>): set<string>
    decreases |entries|
  {
    if |entries| == 0 then {} else EntryNames(entries[..|entries| - 1]) + {entries[|entries| - 1].name}
  }

  /** Puts each decoded record under its name, in document order, so a
      later record with the same name replaces an earlier one. */
  function LoadMedicines(recs: seq<MedicineRecord>): (m: map<string, Medicine>)
    ensures m.Keys == MedicineNames(recs)
    ensures forall n :: n in m ==> m[n].name == n
    decreases |recs|
  {
    if |recs| == 0 then map[]
    else
      var last := recs[|recs| - 1];
      LoadMedicines(recs[..|recs| - 1])[last.name := DecodeMedicine(last)]
  }

  /** The medicine loaded under a name is the last record carrying it. */
  lemma {:induction false} LoadMedicinesLast(recs: seq<MedicineRecord>, i: int)
    requires 0 <= i < |recs| && LastMedicineNamed(recs, i)
    ensures recs[i].name in LoadMedicines(recs)
    ensures LoadMedicines(recs)[recs[i].name] == DecodeMedicine(recs[i])
    decreases |recs|
  {
    if i < |recs| - 1 {
      var init := recs[..|recs| - 1];
      assert init[i] == recs[i];
      assert LastMedicineNamed(init, i) by {
        forall j | i < j < |init|
          ensures init[j].name != init[i].name
        {
          assert init[j] == recs[j];
        }
      }
      LoadMedicinesLast(init, i);
    }
  }

  /** Adds each persisted (name, taken) pair to `t`, in document order. */
  function Restore(t: Today, entries: seq<TakenRecord>): (r: Today)
    ensures r.day == t.day
    ensures r.checklist.Keys == t.checklist.Keys + EntryNames(entries)
    decreases |entries|
  {
    if |entries| == 0 then t
    else
      var last := entries[|entries| - 1];
      Add(Restore(t, entries[..|entries| - 1]), last.name, last.taken)
  }

  /** The count restored for a name is that of the last pair carrying it. */
  lemma {:induction false} RestoreLast(t: Today, entries: seq<TakenRecord>, i: int)
    requires 0 <= i < |entries| && LastEntryNamed(entries, i)
    ensures entries[i].name in Restore(t, entries).checklist
    ensures Restore(t, entries).checklist[entries[i].name] == entries[i].taken
    decreases |entries|
  {
    if i < |entries| - 1 {
      var init := entries[..|entries| - 1];
      assert init[i] == entries[i];
      assert LastEntryNamed(init, i) by {
        forall j | i < j < |init|
          ensures init[j].name != init[i].name
        {
          assert init[j] == entries[j];
        }
      }
      RestoreLast(t, init, i);
    }
  }

  /** Some medicine scheduled on `day` is named `name`, whatever key it is
      held under. */
  ghost predicate ScheduledName(medicines: map<string, Medicine>, day: DayIndex, name: string)
  {
    exists k :: k in medicines && ScheduledOn(medicines[k], day) && medicines[k].name == name
  }

  /** Day-rollover: an entry at 0, under the medicine's own name, for every
      medicine scheduled on `t.day`. */
  function Rollover(t: Today, medicines: map<string, Medicine>): (r: Today)
    ensures r.day == t.day
    ensures forall k :: k in medicines && ScheduledOn(medicines[k], t.day) ==>
      medicines[k].name in r.checklist && r.checklist[medicines[k].name] == 0
    ensures forall n :: n in r.checklist ==> n in t.checklist || ScheduledName(medicines, t.day, n)
    ensures forall n :: n in t.checklist && !ScheduledName(medicines, t.day, n) ==>
      n in r.checklist && r.checklist[n] == t.checklist[n]
  {
    t.(checklist := t.checklist +
      map k | k in medicines && ScheduledOn(medicines[k], t.day) :: medicines[k].name := 0)
  }

  /** Builds the store at start-up on day `day` from what storage holds.
      When the document was written on `day` its checklist is restored;
      otherwise the checklist is rebuilt from the medicines' schedules. */
  function Load(day: DayIndex, stored: Stored): (s: Store)
    ensures s.today.day == day
    ensures KeyedByName(s)
    ensures stored.Nothing? ==> |s.medicines| == 0 && |s.today.checklist| == 0
    ensures stored.Persisted? ==> s.medicines.Keys == MedicineNames(stored.doc.medicines)
    ensures stored.Persisted? && stored.doc.today.dayInt == day ==>
      s.today.checklist.Keys == EntryNames(stored.doc.today.todayArray)
    ensures stored.Persisted? && stored.doc.today.dayInt != day ==>
      && (forall n :: n in s.today.checklist <==> n in s.medicines && ScheduledOn(s.medicines[n], day))
      && (forall n :: n in s.today.checklist ==> s.today.checklist[n] == 0)
  {
    match stored
    case Nothing => Empty(day)
    case Persisted(doc) =>
      var medicines := LoadMedicines(doc.medicines);
      var today :=
        if doc.today.dayInt == day then Restore(NewToday(day), doc.today.todayArray)
        else Rollover(NewToday(day), medicines);
      Store(medicines, today)
  }

  /** On the day it was written, every persisted (name, taken) pair is
      restored with its count unchanged (the last pair wins for a name
      that occurs twice). */
  lemma LoadSameDay(day: DayIndex, doc: Document, i: int)
    requires doc.today.dayInt == day
    requires 0 <= i < |doc.today.todayArray| && LastEntryNamed(doc.today.todayArray, i)
    ensures var e := doc.today.todayArray[i];
      && e.name in Load(day, Persisted(doc)).today.checklist
      && Load(day, Persisted(doc)).today.checklist[e.name] == e.taken
  {
    RestoreLast(NewToday(day), doc.today.todayArray, i);
  }

  /** On any other day the persisted checklist is irrelevant: two documents
      with the same medicines load to the same store. */
  lemma RolloverIgnoresPersistedChecklist(day: DayIndex, doc1: Document, doc2: Document)
    requires doc1.today.dayInt != day && doc2.today.dayInt != day
    requires doc1.medicines == doc2.medicines
    ensures Load(day, Persisted(doc1)) == Load(day, Persisted(doc2))
  {
  }

  lemma {:induction false} MedicineNamesWithin(recs: seq<MedicineRecord>, keys: set<string>)
    requires forall i :: 0 <= i < |recs| ==> recs[i].name in keys
    ensures MedicineNames(recs) <= keys
    decreases |recs|
  {
    if |recs| > 0 {
      var init := recs[..|recs| - 1];
      assert forall i :: 0 <= i < |init| ==> init[i] == recs[i];
      MedicineNamesWithin(init, keys);
    }
  }

  lemma {:induction false} EntryNamesWithin(entries: seq<TakenRecord>, keys: set<string>)
    requires forall i :: 0 <= i < |entries| ==> entries[i].name in keys
    ensures EntryNames(entries) <= keys
    decreases |entries|
  {
    if |entries| > 0 {
      var init := entries[..|entries| - 1];
      assert forall i :: 0 <= i < |init| ==> init[i] == entries[i];
      EntryNamesWithin(init, keys);
    }
  }

  /** Records that decode, one by one, to the medicines of a name-keyed
      map listed in some order load back to exactly that map. */
  lemma LoadEnumeratedMedicines(
    medicines: map<string, Medicine>, order: seq<string>, recs: seq<MedicineRecord>)
    requires Enumerates(order, medicines.Keys)
    requires forall n :: n in medicines ==> medicines[n].name == n
    requires |recs| == |order|
    requires forall i :: 0 <= i < |recs| ==> DecodeMedicine(recs[i]) == medicines[order[i]]
    ensures LoadMedicines(recs) == medicines
  {
    forall i | 0 <= i < |recs|
      ensures recs[i].name == order[i]
    {
      assert DecodeMedicine(recs[i]).name == recs[i].name;
    }
    LoadNamedInOrder(medicines, order, recs);
  }

  lemma LoadNamedInOrder(
    medicines: map<string, Medicine>, order: seq<string>, recs: seq<MedicineRecord>)
    requires Enumerates(order, medicines.Keys)
    requires |recs| == |order|
    requires forall i :: 0 <= i < |recs| ==> recs[i].name == order[i]
    requires forall i :: 0 <= i < |recs| ==> DecodeMedicine(recs[i]) == medicines[order[i]]
    ensures LoadMedicines(recs) == medicines
  {
    var m := LoadMedicines(recs);
    LoadedValuesInOrder(medicines, order, recs);
    MedicineNamesWithin(recs, medicines.Keys);
    MapsAgree(m, medicines);
  }

  /** Two maps with the same keys and the same value at each key are equal. */
  lemma MapsAgree<V>(a: map<string, V>, b: map<string, V>)
    requires a.Keys <= b.Keys
    requires forall k :: k in b ==> k in a && a[k] == b[k]
    ensures a == b
  {
    assert a.Keys == b.Keys;
  }

  lemma LoadedValuesInOrder(
    medicines: map<string, Medicine>, order: seq<string>, recs: seq<MedicineRecord>)
    requires Enumerates(order, medicines.Keys)
    requires |recs| == |order|
    requires forall i :: 0 <= i < |recs| ==> recs[i].name == order[i]
    requires forall i :: 0 <= i < |recs| ==> DecodeMedicine(recs[i]) == medicines[order[i]]
    ensures forall k :: k in medicines ==> k in LoadMedicines(recs) && LoadMedicines(recs)[k] == medicines[k]
  {
    forall k | k in medicines
      ensures k in LoadMedicines(recs) && LoadMedicines(recs)[k] == medicines[k]
    {
      var i :| 0 <= i < |order| && order[i] == k;
      assert LastMedicineNamed(recs, i);
      LoadMedicinesLast(recs, i);
    }
  }

  /** Pairs with distinct names that agree with a checklist and cover it
      restore exactly that checklist. */
  lemma {:induction false} RestoreEnumeratedChecklist(day: DayIndex, checklist: map<string, int>, a: seq<TakenRecord>)
    requires forall i :: 0 <= i < |a| ==> a[i].name in checklist && a[i].taken == checklist[a[i].name]
    requires forall i, j :: 0 <= i < j < |a| ==> a[i].name != a[j].name
    requires forall n :: n in checklist ==> exists i :: 0 <= i < |a| && a[i].name == n
    ensures Restore(NewToday(day), a).checklist == checklist
  {
    var c := Restore(NewToday(day), a).checklist;
    EntryNamesWithin(a, checklist.Keys);
    forall k | k in checklist
      ensures k in c && c[k] == checklist[k]
    {
      var i :| 0 <= i < |a| && a[i].name == k;
      assert LastEntryNamed(a, i);
      RestoreLast(NewToday(day), a, i);
    }
    assert c.Keys == checklist.Keys;
  }

  /** Writing a store out and loading it back on the same day gives the
      same medicines and the same checklist, whatever order the hash maps
      were iterated in. */
  lemma SaveLoadRoundTrip(s: Store, checklistOrder: seq<string>, medicineOrder: seq<string>)
    requires Enumerates(checklistOrder, s.today.checklist.Keys)
    requires Enumerates(medicineOrder, s.medicines.Keys)
    requires KeyedByName(s)
    ensures Load(s.today.day, Persisted(Save(s, checklistOrder, medicineOrder))) == s
  {
    var doc := Save(s, checklistOrder, medicineOrder);
    LoadEnumeratedMedicines(s.medicines, medicineOrder, doc.medicines);
    RestoreEnumeratedChecklist(s.today.day, s.today.checklist, doc.today.todayArray);
  }

  /** A loaded store keeps every checklist entry backed by a medicine,
      unless a same-day document lists a name it holds no record for. */
  lemma LoadValid(day: DayIndex, stored: Stored)
    requires stored.Persisted? && stored.doc.today.dayInt == day ==>
      EntryNames(stored.doc.today.todayArray) <= MedicineNames(stored.doc.medicines)
    ensures Valid(Load(day, stored))
  {
  }
}
