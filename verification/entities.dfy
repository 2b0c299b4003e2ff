/** The entity layer both data-access objects work on: a medicine's dose and
    supply, the medicine with its weekly schedule, the factory that builds a
    medicine from raw field values, and the checklist of doses taken today. */
module Entities {

  /** Days of the week, numbered Sunday = 0 … Saturday = 6. */
  type DayIndex = d: int | 0 <= d < 7

  /** Doses scheduled on each day of the week, indexed by DayIndex
      (0 means "not scheduled that day"). */
  type Schedule = s: seq<int> | |s| == 7 witness [0, 0, 0, 0, 0, 0, 0]

  /** True iff the two maps agree on every key other than `key`. */
  ghost predicate SameExcept<V>(a: map<string, V>, b: map<string, V>, key: string)
  {
    forall n :: n != key ==> (n in a <==> n in b) && (n in a ==> a[n] == b[n])
  }

  // ---------------------------------------------------------------- Dose

  /** Amount per dose, its unit label and the number of doses on hand.
      Nothing bounds the inventory: it may go negative. */
  datatype Dose = Dose(size: int, unit: string, inventory: int)

  function TakeDose(d: Dose): (r: Dose)
    ensures r.inventory == d.inventory - 1
    ensures r.size == d.size && r.unit == d.unit
  {
    d.(inventory := d.inventory - 1)
  }

  function UndoTakeDose(d: Dose): (r: Dose)
    ensures r.inventory == d.inventory + 1
    ensures r.size == d.size && r.unit == d.unit
  {
    d.(inventory := d.inventory + 1)
  }

  /** Taking a dose and undoing it are mutually inverse, in either order. */
  lemma DoseTakeUndoInverse(d: Dose)
    ensures UndoTakeDose(TakeDose(d)) == d
    ensures TakeDose(UndoTakeDose(d)) == d
  {
  }

  // ------------------------------------------------------------ Medicine

  /** A medicine: its name is the key under which a store holds it. */
  datatype Medicine = Medicine(
    name: string,
    id: string,
    description: string,
    schedule: Schedule,
    dose: Dose)

  /** The medicine has at least one dose scheduled on `day`. */
  predicate ScheduledOn(m: Medicine, day: DayIndex)
  {
    m.schedule[day] != 0
  }

  /** Builds a medicine and its dose from raw fields, without validation. */
  function CreateMedicine(
    name: string, doseSize: int, doseInventory: int, doseUnit: string,
    weeklySchedule: Schedule, description: string, id: string): (m: Medicine)
    ensures m.name == name && m.id == id && m.description == description
    ensures m.dose.size == doseSize && m.dose.unit == doseUnit
    ensures m.dose.inventory == doseInventory
    ensures m.schedule == weeklySchedule
    ensures forall d: DayIndex :: ScheduledOn(m, d) <==> weeklySchedule[d] != 0
  {
    Medicine(name, id, description, weeklySchedule, Dose(doseSize, doseUnit, doseInventory))
  }

  // --------------------------------------------------------------- Today

  /** The checklist of the day `day`: medicine name to doses taken so far. */
  datatype Today = Today(day: DayIndex, checklist: map<string, int>)

  function NewToday(day: DayIndex): (t: Today)
    ensures t.day == day && |t.checklist| == 0
  {
    Today(day, map[])
  }

  /** Inserts or overwrites the entry for `name`. */
  function Add(t: Today, name: string, taken: int): (r: Today)
    ensures r.day == t.day
    ensures name in r.checklist && r.checklist[name] == taken
    ensures SameExcept(r.checklist, t.checklist, name)
  {
    t.(checklist := t.checklist[name := taken])
  }

  /** Deletes the entry for `name`; an absent name is tolerated. */
  function Remove(t: Today, name: string): (r: Today)
    ensures r.day == t.day
    ensures name !in r.checklist
    ensures SameExcept(r.checklist, t.checklist, name)
    ensures name !in t.checklist ==> r == t
  {
    t.(checklist := t.checklist - {name})
  }

  function Take(t: Today, name: string): (r: Today)
    requires name in t.checklist
    ensures r.day == t.day
    ensures name in r.checklist && r.checklist[name] == t.checklist[name] + 1
    ensures SameExcept(r.checklist, t.checklist, name)
  {
    t.(checklist := t.checklist[name := t.checklist[name] + 1])
  }

  function Untake(t: Today, name: string): (r: Today)
    requires name in t.checklist
    ensures r.day == t.day
    ensures name in r.checklist && r.checklist[name] == t.checklist[name] - 1
    ensures SameExcept(r.checklist, t.checklist, name)
  {
    t.(checklist := t.checklist[name := t.checklist[name] - 1])
  }

  /** Ticking a name off and unticking it are mutually inverse. */
  lemma TodayTakeUntakeInverse(t: Today, name: string)
    requires name in t.checklist
    ensures Untake(Take(t, name), name) == t
    ensures Take(Untake(t, name), name) == t
  {
    assert Untake(Take(t, name), name).checklist == t.checklist;
    assert Take(Untake(t, name), name).checklist == t.checklist;
  }
}
