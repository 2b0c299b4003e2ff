/** The in-memory state machine shared by the file-backed and the in-memory
    data-access objects: the medicines keyed by name, and today's checklist.
    Every operation is a pure transition from one store to the next. */
module MedicineStore {
  import opened Entities

  datatype Store = Store(medicines: map<string, Medicine>, today: Today)

  /** Taking or undoing a dose of a name the store does not hold. */
  datatype StoreError = UnknownMedicine(name: string)

  datatype Result<T> = Ok(value: T) | Err(error: StoreError)

  /** `order` lists every key of `keys` exactly once: one possible
      iteration order of a hash map with that key set. */
  predicate Enumerates(order: seq<string>, keys: set<string>)
  {
    && (forall i, j :: 0 <= i < j < |order| ==> order[i] != order[j])
    && (forall k :: k in order ==> k in keys)
    && (forall k :: k in keys ==> k in order)
  }

  /** Every medicine is held under its own name. */
  ghost predicate KeyedByName(s: Store)
  {
    forall n :: n in s.medicines ==> s.medicines[n].name == n
  }

  /** Every checklist entry belongs to a stored medicine. */
  ghost predicate ChecklistTracked(s: Store)
  {
    s.today.checklist.Keys <= s.medicines.Keys
  }

  ghost predicate Valid(s: Store)
  {
    KeyedByName(s) && ChecklistTracked(s)
  }

  /** A store with no medicines and an empty checklist for `day`. */
  function Empty(day: DayIndex): (s: Store)
    ensures s.today.day == day
    ensures |s.medicines| == 0 && |s.today.checklist| == 0
    ensures Valid(s)
  {
    Store(map[], NewToday(day))
  }

  predicate Exists(s: Store, name: string)
    ensures Exists(s, name) <==> name in s.medicines.Keys
    ensures Exists(s, name) && KeyedByName(s) ==> s.medicines[name].name == name
  {
    name in s.medicines
  }

  /** Upserts `m` under its name; when `m` is scheduled today its checklist
      entry is (re)set to 0, discarding any count already taken. */
  function SaveMedicine(s: Store, m: Medicine): (r: Store)
    ensures r.today.day == s.today.day
    ensures m.name in r.medicines && r.medicines[m.name] == m
    ensures SameExcept(r.medicines, s.medicines, m.name)
    ensures ScheduledOn(m, s.today.day) ==>
      m.name in r.today.checklist && r.today.checklist[m.name] == 0
      && SameExcept(r.today.checklist, s.today.checklist, m.name)
    ensures !ScheduledOn(m, s.today.day) ==> r.today == s.today
  {
    var today := if ScheduledOn(m, s.today.day) then Add(s.today, m.name, 0) else s.today;
    Store(s.medicines[m.name := m], today)
  }

  /** Deletes `name` from the medicines and from the checklist. */
  function RemoveMedicine(s: Store, name: string): (r: Store)
    ensures r.today.day == s.today.day
    ensures name !in r.medicines && name !in r.today.checklist
    ensures SameExcept(r.medicines, s.medicines, name)
    ensures SameExcept(r.today.checklist, s.today.checklist, name)
    ensures name !in s.medicines && name !in s.today.checklist ==> r == s
  {
    Store(s.medicines - {name}, Remove(s.today, name))
  }

  /** `a` and `b` are the same medicine except, possibly, for the
      inventory of its dose. */
  ghost predicate SameButInventory(a: Medicine, b: Medicine)
  {
    && a.name == b.name && a.id == b.id && a.description == b.description
    && a.schedule == b.schedule
    && a.dose.size == b.dose.size && a.dose.unit == b.dose.unit
  }

  /** Draws one dose from the supply of `name` and ticks it off today's
      checklist; a name missing from either map is an error and changes
      nothing. */
  function TakeMedicine(s: Store, name: string): (r: Result<Store>)
    ensures r.Err? <==> name !in s.medicines || name !in s.today.checklist
    ensures r.Err? ==> r.error == UnknownMedicine(name)
    ensures r.Ok? ==>
      && r.value.today.day == s.today.day
      && name in r.value.medicines
      && SameButInventory(r.value.medicines[name], s.medicines[name])
      && r.value.medicines[name].dose.inventory == s.medicines[name].dose.inventory - 1
      && SameExcept(r.value.medicines, s.medicines, name)
      && name in r.value.today.checklist
      && r.value.today.checklist[name] == s.today.checklist[name] + 1
      && SameExcept(r.value.today.checklist, s.today.checklist, name)
  {
    if name !in s.medicines || name !in s.today.checklist then
      Err(UnknownMedicine(name))
    else
      var m := s.medicines[name];
      Ok(Store(s.medicines[name := m.(dose := TakeDose(m.dose))], Take(s.today, name)))
  }

  /** Returns one dose of `name` to the supply and unticks it. */
  function UndoTakeMedicine(s: Store, name: string): (r: Result<Store>)
    ensures r.Err? <==> name !in s.medicines || name !in s.today.checklist
    ensures r.Err? ==> r.error == UnknownMedicine(name)
    ensures r.Ok? ==>
      && r.value.today.day == s.today.day
      && name in r.value.medicines
      && SameButInventory(r.value.medicines[name], s.medicines[name])
      && r.value.medicines[name].dose.inventory == s.medicines[name].dose.inventory + 1
      && SameExcept(r.value.medicines, s.medicines, name)
      && name in r.value.today.checklist
      && r.value.today.checklist[name] == s.today.checklist[name] - 1
      && SameExcept(r.value.today.checklist, s.today.checklist, name)
  {
    if name !in s.medicines || name !in s.today.checklist then
      Err(UnknownMedicine(name))
    else
      var m := s.medicines[name];
      Ok(Store(s.medicines[name := m.(dose := UndoTakeDose(m.dose))], Untake(s.today, name)))
  }

  /** Undoing a dose restores exactly the store before it was taken, and
      taking a dose restores exactly the store before it was undone. */
  lemma TakeUndoInverse(s: Store, name: string)
    ensures TakeMedicine(s, name).Ok? ==>
      UndoTakeMedicine(TakeMedicine(s, name).value, name) == Ok(s)
    ensures UndoTakeMedicine(s, name).Ok? ==>
      TakeMedicine(UndoTakeMedicine(s, name).value, name) == Ok(s)
  {
    if TakeMedicine(s, name).Ok? {
      var r := UndoTakeMedicine(TakeMedicine(s, name).value, name).value;
      assert r.medicines == s.medicines;
      assert r.today.checklist == s.today.checklist;
    }
    if UndoTakeMedicine(s, name).Ok? {
      var r := TakeMedicine(UndoTakeMedicine(s, name).value, name).value;
      assert r.medicines == s.medicines;
      assert r.today.checklist == s.today.checklist;
    }
  }

  /** Saving keeps every checklist entry backed by a stored medicine and
      every medicine under its own name. */
  lemma SavePreservesValid(s: Store, m: Medicine)
    requires Valid(s)
    ensures Valid(SaveMedicine(s, m))
  {
  }

  lemma RemovePreservesValid(s: Store, name: string)
    requires Valid(s)
    ensures Valid(RemoveMedicine(s, name))
  {
  }

  lemma TakeUndoPreserveValid(s: Store, name: string)
    requires Valid(s)
    ensures TakeMedicine(s, name).Ok? ==> Valid(TakeMedicine(s, name).value)
    ensures UndoTakeMedicine(s, name).Ok? ==> Valid(UndoTakeMedicine(s, name).value)
  {
  }

  /** Re-saving a medicine that is scheduled today resets its count to 0,
      even when doses were already taken. */
  lemma ResaveResetsTakenCount(s: Store, m: Medicine)
    requires ScheduledOn(m, s.today.day)
    requires m.name in s.today.checklist && s.today.checklist[m.name] > 0
    ensures SaveMedicine(s, m).today.checklist[m.name] == 0
  {
  }

  /** "A checklist entry exists exactly for the medicines scheduled today". */
  ghost predicate ChecklistMatchesSchedule(s: Store)
  {
    && ChecklistTracked(s)
    && forall n :: n in s.medicines ==> (n in s.today.checklist <==> ScheduledOn(s.medicines[n], s.today.day))
  }

  /** The exact-match invariant is not kept by SaveMedicine: re-saving a
      medicine that is scheduled today with a schedule that is zero today
      leaves its stale entry. */
  lemma ResaveUnscheduledLeavesStaleEntry(s: Store, m: Medicine)
    requires ChecklistMatchesSchedule(s)
    requires m.name in s.medicines && ScheduledOn(s.medicines[m.name], s.today.day)
    requires !ScheduledOn(m, s.today.day)
    ensures !ChecklistMatchesSchedule(SaveMedicine(s, m))
  {
    var r := SaveMedicine(s, m);
    assert m.name in r.medicines && m.name in r.today.checklist && !ScheduledOn(r.medicines[m.name], r.today.day);
  }

  /** A store meeting the requirements of ResaveUnscheduledLeavesStaleEntry:
      one medicine scheduled on Monday only, re-saved as a Tuesday medicine. */
  lemma StaleEntryExample()
    ensures var before := Medicine("A", "1", "", [0, 1, 0, 0, 0, 0, 0], Dose(1, "mg", 10));
            var s := SaveMedicine(Empty(1), before);
            && ChecklistMatchesSchedule(s)
            && "A" in s.medicines && ScheduledOn(s.medicines["A"], s.today.day)
            && !ScheduledOn(before.(schedule := [0, 0, 1, 0, 0, 0, 0]), s.today.day)
  {
    var before := Medicine("A", "1", "", [0, 1, 0, 0, 0, 0, 0], Dose(1, "mg", 10));
    var s := SaveMedicine(Empty(1), before);
    assert s.medicines.Keys == {"A"};
  }
}
