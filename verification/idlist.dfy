/** The "+"-joined list of medicine ids handed to the drug-lookup service,
    with splitting at "+" as its inverse. */
module IdList {
  import opened MedicineStore

  const Separator: char := '+'

  /** `ids` with a single "+" between neighbours. */
  function Join(ids: seq<string>): string
    decreases |ids|
  {
    if |ids| == 0 then ""
    else if |ids| == 1 then ids[0]
    else ids[0] + [Separator] + Join(ids[1..])
  }

  /** The pieces of `s` between "+" characters (one piece when there is
      none). */
  function Split(s: string): (parts: seq<string>)
    ensures |parts| >= 1
    decreases |s|
  {
    if |s| == 0 then [""]
    else if s[0] == Separator then [""] + Split(s[1..])
    else
      var rest := Split(s[1..]);
      [[s[0]] + rest[0]] + rest[1..]
  }

  /** Number of "+" characters in `s`. */
  function SeparatorCount(s: string): nat
    decreases |s|
  {
    if |s| == 0 then 0 else (if s[0] == Separator then 1 else 0) + SeparatorCount(s[1..])
  }

  predicate NoSeparator(ids: seq<string>)
  {
    forall i :: 0 <= i < |ids| ==> Separator !in ids[i]
  }

  /** The ids of the stored medicines, in the iteration order `order`. */
  function Ids(s: Store, order: seq<string>): (ids: seq<string>)
    requires Enumerates(order, s.medicines.Keys)
    ensures |ids| == |order|
    ensures forall i :: 0 <= i < |order| ==> ids[i] == s.medicines[order[i]].id
  {
    seq(|order|, i requires 0 <= i < |order| => s.medicines[order[i]].id)
  }

  lemma {:induction false} SplitNoSeparator(a: string)
    requires Separator !in a
    ensures Split(a) == [a]
    decreases |a|
  {
    if |a| > 0 {
      SplitNoSeparator(a[1..]);
      assert [a[0]] + a[1..] == a;
    }
  }

  lemma {:induction false} SplitAtSeparator(a: string, t: string)
    requires Separator !in a
    ensures Split(a + [Separator] + t) == [a] + Split(t)
    decreases |a|
  {
    if |a| == 0 {
      assert a + [Separator] + t == [Separator] + t;
      assert ([Separator] + t)[1..] == t;
    } else {
      var u := a + [Separator] + t;
      assert u[0] == a[0];
      assert u[1..] == a[1..] + [Separator] + t;
      SplitAtSeparator(a[1..], t);
      assert [a[0]] + a[1..] == a;
    }
  }

  /** Joining then splitting gives back the ids, provided there is at least
      one and none contains "+". */
  lemma {:induction false} SplitJoin(ids: seq<string>)
    requires |ids| >= 1 && NoSeparator(ids)
    ensures Split(Join(ids)) == ids
    decreases |ids|
  {
    if |ids| == 1 {
      SplitNoSeparator(ids[0]);
    } else {
      SplitJoin(ids[1..]);
      SplitAtSeparator(ids[0], Join(ids[1..]));
      assert [ids[0]] + ids[1..] == ids;
    }
  }

  lemma {:induction false} SeparatorCountAppend(a: string, b: string)
    ensures SeparatorCount(a + b) == SeparatorCount(a) + SeparatorCount(b)
    decreases |a|
  {
    if |a| > 0 {
      assert (a + b)[1..] == a[1..] + b;
      SeparatorCountAppend(a[1..], b);
    } else {
      assert a + b == b;
    }
  }

  lemma {:induction false} SeparatorCountNone(a: string)
    requires Separator !in a
    ensures SeparatorCount(a) == 0
    decreases |a|
  {
    if |a| > 0 {
      SeparatorCountNone(a[1..]);
    }
  }

  /** n ids without "+" are joined by exactly n - 1 separators. */
  lemma {:induction false} JoinSeparatorCount(ids: seq<string>)
    requires |ids| >= 1 && NoSeparator(ids)
    ensures SeparatorCount(Join(ids)) == |ids| - 1
    decreases |ids|
  {
    SeparatorCountNone(ids[0]);
    if |ids| > 1 {
      JoinSeparatorCount(ids[1..]);
      SeparatorCountAppend(ids[0] + [Separator], Join(ids[1..]));
      SeparatorCountAppend(ids[0], [Separator]);
    }
  }

  /** The join is empty only for no ids or a single empty id. */
  lemma JoinEmpty(ids: seq<string>)
    ensures Join(ids) == "" <==> |ids| == 0 || (|ids| == 1 && ids[0] == "")
  {
    if |ids| > 1 {
      assert |Join(ids)| >= |ids[0] + [Separator]| > 0;
    }
  }

  /** Appending one id on the right, as a builder does. */
  lemma {:induction false} JoinSnoc(ids: seq<string>, x: string)
    requires |ids| >= 1
    ensures Join(ids + [x]) == Join(ids) + [Separator] + x
    decreases |ids|
  {
    if |ids| == 1 {
      assert ids + [x] == [ids[0], x];
    } else {
      assert (ids + [x])[1..] == ids[1..] + [x];
      JoinSnoc(ids[1..], x);
    }
  }

  /** Appends every id followed by "+" and then drops the final "+"; an
      empty store gives the empty string. */
  method IdListString(s: Store, order: seq<string>) returns (r: string)
    requires Enumerates(order, s.medicines.Keys)
    ensures |s.medicines| == 0 ==> r == ""
    ensures |s.medicines| > 0 ==> r == Join(Ids(s, order))
    ensures |s.medicines| > 0 && NoSeparator(Ids(s, order)) ==>
      Split(r) == Ids(s, order) && SeparatorCount(r) == |s.medicines| - 1
    ensures r == "" <==> |s.medicines| == 0 || (|s.medicines| == 1 && Ids(s, order)[0] == "")
  {
    if |s.medicines| == 0 {
      return "";
    }
    var ids := Ids(s, order);
    DistinctCount(order, s.medicines.Keys);
    var builder := "";
    var i := 0;
    while i < |ids|
      invariant 0 <= i <= |ids|
      invariant i == 0 ==> builder == ""
      invariant i > 0 ==> builder == Join(ids[..i]) + [Separator]
    {
      if i > 0 {
        JoinSnoc(ids[..i], ids[i]);
        assert ids[..i + 1] == ids[..i] + [ids[i]];
      } else {
        assert ids[..1] == [ids[0]];
      }
      builder := builder + ids[i] + [Separator];
      i := i + 1;
    }
    assert ids[..|ids|] == ids;
    r := builder[..|builder| - 1];
    assert r == Join(ids);
    JoinEmpty(ids);
    if NoSeparator(ids) {
      SplitJoin(ids);
      JoinSeparatorCount(ids);
    }
  }

  /** An enumeration of a key set is as long as the set is large. */
  lemma {:induction false} DistinctCount(order: seq<string>, keys: set<string>)
    requires Enumerates(order, keys)
    ensures |order| == |keys|
    decreases |order|
  {
    if |order| == 0 {
      assert keys == {};
    } else {
      var last := order[|order| - 1];
      var init := order[..|order| - 1];
      assert forall k :: k in init ==> k in order;
      assert forall k :: k in order && k != last ==> k in init;
      DistinctCount(init, keys - {last});
    }
  }
}
