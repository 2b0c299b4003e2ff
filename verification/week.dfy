/** The mapping from a calendar day of the week to the schedule index both
    data-access factories perform. */
module Week {
  import opened Entities

  datatype DayOfWeek = Sunday | Monday | Tuesday | Wednesday | Thursday | Friday | Saturday

  /** Sunday = 0, Monday = 1, …, Saturday = 6. */
  function DayIndexOf(d: DayOfWeek): (i: DayIndex)
    ensures DayOf(i) == d
  {
    match d
    case Sunday => 0
    case Monday => 1
    case Tuesday => 2
    case Wednesday => 3
    case Thursday => 4
    case Friday => 5
    case Saturday => 6
  }

  /** The day of the week a schedule index stands for. */
  function DayOf(i: DayIndex): DayOfWeek
  {
    if i == 0 then Sunday
    else if i == 1 then Monday
    else if i == 2 then Tuesday
    else if i == 3 then Wednesday
    else if i == 4 then Thursday
    else if i == 5 then Friday
    else Saturday
  }

  /** The mapping is a bijection between the seven days and 0..6. */
  lemma DayIndexBijective()
    ensures forall i: DayIndex :: DayIndexOf(DayOf(i)) == i
    ensures forall d1, d2 :: DayIndexOf(d1) == DayIndexOf(d2) ==> d1 == d2
  {
  }
}
