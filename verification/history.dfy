/** Sequences of store operations as the user interface issues them, and
    what holds of every store they reach. */
module History {
  import opened Entities
  import opened MedicineStore
  import opened Persistence

  datatype Op = SaveOp(medicine: Medicine) | RemoveOp(name: string) | TakeOp(name: string) | UndoOp(name: string)

  /** One operation; a take or undo of an unknown name reports its error
      to the caller and leaves the store as it was. */
  function Step(s: Store, op: Op): Store
  {
    match op
    case SaveOp(m) => SaveMedicine(s, m)
    case RemoveOp(n) => RemoveMedicine(s, n)
    case TakeOp(n) => var r := TakeMedicine(s, n); if r.Ok? then r.value else s
    case UndoOp(n) => var r := UndoTakeMedicine(s, n); if r.Ok? then r.value else s
  }

  function Run(s: Store, ops: seq<Op>): Store
    decreases |ops|
  {
    if |ops| == 0 then s else Step(Run(s, ops[..|ops| - 1]), ops[|ops| - 1])
  }

  /** Some operation saved a medicine called `name` and no later one
      removed that name. */
  ghost predicate SavedAndNotRemoved(ops: seq<Op>, name: string)
  {
    exists i :: 0 <= i < |ops| && ops[i].SaveOp? && ops[i].medicine.name == name
      && forall j :: i < j < |ops| ==> ops[j] != RemoveOp(name)
  }

  /** One step makes a name exist iff it saves that name, or the name
      existed and the step does not remove it. */
  lemma StepExists(s: Store, op: Op, name: string)
    ensures Exists(Step(s, op), name) <==>
      (op.SaveOp? && op.medicine.name == name) || (Exists(s, name) && op != RemoveOp(name))
  {
  }

  /** The history predicate, unfolded at the last operation. */
  lemma SavedAndNotRemovedSnoc(ops: seq<Op>, name: string)
    requires |ops| > 0
    ensures var init := ops[..|ops| - 1];
            var last := ops[|ops| - 1];
            SavedAndNotRemoved(ops, name) <==>
              (last.SaveOp? && last.medicine.name == name)
              || (SavedAndNotRemoved(init, name) && last != RemoveOp(name))
  {
    var init := ops[..|ops| - 1];
    var last := ops[|ops| - 1];
    if SavedAndNotRemoved(ops, name) && !(last.SaveOp? && last.medicine.name == name) {
      var i :| 0 <= i < |ops| && ops[i].SaveOp? && ops[i].medicine.name == name
        && forall j :: i < j < |ops| ==> ops[j] != RemoveOp(name);
      assert i < |init| && init[i] == ops[i];
      assert forall j :: i < j < |init| ==> init[j] == ops[j];
      assert SavedAndNotRemoved(init, name);
    }
    if SavedAndNotRemoved(init, name) && last != RemoveOp(name) {
      var i :| 0 <= i < |init| && init[i].SaveOp? && init[i].medicine.name == name
        && forall j :: i < j < |init| ==> init[j] != RemoveOp(name);
      assert ops[i] == init[i];
      assert forall j :: i < j < |init| ==> init[j] == ops[j];
      assert SavedAndNotRemoved(ops, name);
    }
    if last.SaveOp? && last.medicine.name == name {
      var i := |ops| - 1;
      assert ops[i].SaveOp? && ops[i].medicine.name == name;
    }
  }

  /** Starting from an empty store, a name exists exactly when it was
      saved and not removed since. */
  lemma {:induction false} ExistsIffSavedAndNotRemoved(day: DayIndex, ops: seq<Op>, name: string)
    ensures Exists(Run(Empty(day), ops), name) <==> SavedAndNotRemoved(ops, name)
    decreases |ops|
  {
    if |ops| > 0 {
      var init := ops[..|ops| - 1];
      ExistsIffSavedAndNotRemoved(day, init, name);
      StepExists(Run(Empty(day), init), ops[|ops| - 1], name);
      SavedAndNotRemovedSnoc(ops, name);
    }
  }

  /** Any sequence of operations keeps a valid store valid. */
  lemma {:induction false} RunPreservesValid(s: Store, ops: seq<Op>)
    requires Valid(s)
    ensures Valid(Run(s, ops))
    ensures Run(s, ops).today.day == s.today.day
    decreases |ops|
  {
    if |ops| > 0 {
      var init := ops[..|ops| - 1];
      RunPreservesValid(s, init);
      var t := Run(s, init);
      var last := ops[|ops| - 1];
      match last
      case SaveOp(m) => SavePreservesValid(t, m);
      case RemoveOp(n) => RemovePreservesValid(t, n);
      case TakeOp(n) => TakeUndoPreserveValid(t, n);
      case UndoOp(n) => TakeUndoPreserveValid(t, n);
    }
  }

  /** Any sequence of operations keeps every medicine under its own name,
      and the day. */
  lemma {:induction false} RunPreservesKeyedByName(s: Store, ops: seq<Op>)
    requires KeyedByName(s)
    ensures KeyedByName(Run(s, ops))
    ensures Run(s, ops).today.day == s.today.day
    decreases |ops|
  {
    if |ops| > 0 {
      RunPreservesKeyedByName(s, ops[..|ops| - 1]);
    }
  }

  /** Write-through persistence: the document written after any sequence
      of operations from a loaded store reloads, on the same day, to the
      store the operations reached. */
  lemma WriteThroughReloads(s: Store, ops: seq<Op>, checklistOrder: seq<string>, medicineOrder: seq<string>)
    requires KeyedByName(s)
    requires Enumerates(checklistOrder, Run(s, ops).today.checklist.Keys)
    requires Enumerates(medicineOrder, Run(s, ops).medicines.Keys)
    ensures Load(s.today.day, Persisted(Save(Run(s, ops), checklistOrder, medicineOrder))) == Run(s, ops)
  {
    RunPreservesKeyedByName(s, ops);
    SaveLoadRoundTrip(Run(s, ops), checklistOrder, medicineOrder);
  }
}
