/** `model.ExpenseTracker`: a list of distinct expense objects kept ascending by date,
    changed only by `addExpense` and `deleteExpense`. */
module Tracker {
  import opened Results
  import opened Dates
  import opened Expenses
  import opened Seqs
  import opened Views

  datatype Tracker = Tracker(expenses: seq<Ref>)

  /** The tracker's invariant: live objects, none twice, ascending by date. */
  ghost predicate Valid(h: Heap, t: Tracker)
  {
    Live(h, t.expenses) && Distinct(t.expenses) && Sorted(h, t.expenses)
  }

  /** `new ExpenseTracker()`: empty, and valid whatever the heap. */
  function Empty(): (t: Tracker)
    ensures |t.expenses| == 0
    ensures forall h :: Valid(h, t)
  {
    Tracker([])
  }

  // ----- the sort behind addExpense -----

  /** Inserts `x` into `s` after every trailing element dated strictly later than it:
      one step of a stable insertion sort that takes `x` as the latest-arriving element. */
  function Insert(h: Heap, s: seq<Ref>, x: Ref): (r: seq<Ref>)
    requires Live(h, s) && x in h.objects
    ensures multiset(r) == multiset(s) + multiset{x}
    decreases |s|
  {
    if s == [] then [x]
    else
      var last := s[|s| - 1];
      var init := s[..|s| - 1];
      assert s == init + [last];
      if OnOrBefore(h.GetDate(last), h.GetDate(x)) then s + [x]
      else Insert(h, init, x) + [last]
  }

  /** The prefix of a sorted sequence is sorted. */
  lemma SortedInit(h: Heap, s: seq<Ref>)
    requires Live(h, s) && Sorted(h, s) && s != []
    ensures Live(h, s[..|s| - 1]) && Sorted(h, s[..|s| - 1])
  {
    var init := s[..|s| - 1];
    forall i, j | 0 <= i < j < |init|
      ensures OnOrBefore(h.GetDate(init[i]), h.GetDate(init[j]))
    {
      assert init[i] == s[i] && init[j] == s[j];
    }
  }

  /** An element dated before the last one is inserted into the rest, in front of it. */
  lemma InsertBeforeLast(h: Heap, s: seq<Ref>, x: Ref)
    requires Live(h, s) && x in h.objects && s != []
    requires !OnOrBefore(h.GetDate(s[|s| - 1]), h.GetDate(x))
    ensures Live(h, s[..|s| - 1])
    ensures Insert(h, s, x) == Insert(h, s[..|s| - 1], x) + [s[|s| - 1]]
  {
  }

  /** `k` splits `s` into the elements dated on or before `x` and those dated after it. */
  ghost predicate SplitsAt(h: Heap, s: seq<Ref>, x: Ref, k: nat)
    requires Live(h, s) && x in h.objects
  {
    && k <= |s|
    && (forall i :: 0 <= i < k ==> OnOrBefore(h.GetDate(s[i]), h.GetDate(x)))
    && (forall i :: k <= i < |s| ==> !OnOrBefore(h.GetDate(s[i]), h.GetDate(x)))
  }

  /** The appending case of `InsertPosition`. */
  lemma InsertPositionAtEnd(h: Heap, s: seq<Ref>, x: Ref)
    requires Live(h, s) && x in h.objects && Sorted(h, s) && s != []
    requires OnOrBefore(h.GetDate(s[|s| - 1]), h.GetDate(x))
    ensures Insert(h, s, x) == s[..|s|] + [x] + s[|s|..]
    ensures SplitsAt(h, s, x, |s|)
  {
    InsertAtEnd(h, s, x);
    assert s[..|s|] + [x] + s[|s|..] == s + [x];
    forall i | 0 <= i < |s|
      ensures OnOrBefore(h.GetDate(s[i]), h.GetDate(x))
    {
      if i < |s| - 1 {
        Trans(h.GetDate(s[i]), h.GetDate(s[|s| - 1]), h.GetDate(x));
      }
    }
  }

  /** The recursive case of `InsertPosition`, for the list: `x` goes in front of the last
      element at the place it takes among the others. */
  lemma InsertPositionBefore(h: Heap, s: seq<Ref>, x: Ref, k: nat)
    requires Live(h, s) && x in h.objects && s != [] && k < |s|
    requires !OnOrBefore(h.GetDate(s[|s| - 1]), h.GetDate(x))
    requires Insert(h, s[..|s| - 1], x) == s[..|s| - 1][..k] + [x] + s[..|s| - 1][k..]
    ensures Insert(h, s, x) == s[..k] + [x] + s[k..]
  {
    InsertBeforeLast(h, s, x);
    SpliceInit(s, x, k);
  }

  /** The recursive case of `InsertPosition`, for the split: a split of all but the last
      element that the last one is after extends to a split of the whole. */
  lemma SplitsAtExtend(h: Heap, s: seq<Ref>, x: Ref, k: nat)
    requires Live(h, s) && x in h.objects && s != []
    requires !OnOrBefore(h.GetDate(s[|s| - 1]), h.GetDate(x))
    requires Live(h, s[..|s| - 1]) && SplitsAt(h, s[..|s| - 1], x, k)
    ensures SplitsAt(h, s, x, k)
  {
    assert forall i :: 0 <= i < |s| - 1 ==> s[i] == s[..|s| - 1][i];
  }

  /** Into a sorted list `x` lands at the split point `k`: everything before it is dated
      on or before `x`, everything after it strictly later, and the others keep their
      order. So a new expense comes after every existing one of the same date. */
  lemma {:induction false} InsertPosition(h: Heap, s: seq<Ref>, x: Ref) returns (k: nat)
    requires Live(h, s) && x in h.objects && Sorted(h, s)
    ensures k <= |s|
    ensures Insert(h, s, x) == s[..k] + [x] + s[k..]
    ensures forall i :: 0 <= i < k ==> OnOrBefore(h.GetDate(s[i]), h.GetDate(x))
    ensures forall i :: k <= i < |s| ==> !OnOrBefore(h.GetDate(s[i]), h.GetDate(x))
    decreases |s|
  {
    if s == [] {
      k := 0;
    } else if OnOrBefore(h.GetDate(s[|s| - 1]), h.GetDate(x)) {
      k := |s|;
      InsertPositionAtEnd(h, s, x);
    } else {
      SortedInit(h, s);
      k := InsertPosition(h, s[..|s| - 1], x);
      InsertPositionBefore(h, s, x, k);
      SplitsAtExtend(h, s, x, k);
    }
  }

  /** Putting `x` at a split point of a sorted list, after the elements dated on or before
      it and before those dated on or after it, gives a sorted list. */
  lemma SortedSplice(h: Heap, s: seq<Ref>, x: Ref, k: nat)
    requires Live(h, s) && x in h.objects && Sorted(h, s) && k <= |s|
    requires forall i :: 0 <= i < k ==> OnOrBefore(h.GetDate(s[i]), h.GetDate(x))
    requires forall i :: k <= i < |s| ==> OnOrBefore(h.GetDate(x), h.GetDate(s[i]))
    ensures Live(h, s[..k] + [x] + s[k..]) && Sorted(h, s[..k] + [x] + s[k..])
  {
    var r := s[..k] + [x] + s[k..];
    assert forall i :: 0 <= i < k ==> r[i] == s[i];
    assert forall i :: k < i < |r| ==> r[i] == s[i - 1];
    assert Live(h, r) by {
      forall y | y in r ensures y in h.objects {
        var i :| 0 <= i < |r| && r[i] == y;
      }
    }
  }

  /** Inserting into a sorted list keeps it sorted. */
  lemma InsertSorted(h: Heap, s: seq<Ref>, x: Ref)
    requires Live(h, s) && x in h.objects && Sorted(h, s)
    ensures Live(h, Insert(h, s, x)) && Sorted(h, Insert(h, s, x))
  {
    var k := InsertPosition(h, s, x);
    forall i | k <= i < |s| ensures OnOrBefore(h.GetDate(x), h.GetDate(s[i])) {
      Total(h.GetDate(x), h.GetDate(s[i]));
    }
    SortedSplice(h, s, x, k);
  }

  /** Stable insertion sort by date: `Collections.sort` with the view's date order. */
  function SortByDate(h: Heap, s: seq<Ref>): (r: seq<Ref>)
    requires Live(h, s)
    ensures multiset(r) == multiset(s)
    ensures Live(h, r) && Sorted(h, r)
    decreases |s|
  {
    if s == [] then []
    else
      var init := s[..|s| - 1];
      assert s == init + [s[|s| - 1]];
      var sorted := SortByDate(h, init);
      InsertSorted(h, sorted, s[|s| - 1]);
      Insert(h, sorted, s[|s| - 1])
  }

  /** An element dated on or after the last one is appended. */
  lemma InsertAtEnd(h: Heap, s: seq<Ref>, x: Ref)
    requires Live(h, s) && x in h.objects
    requires s != [] ==> OnOrBefore(h.GetDate(s[|s| - 1]), h.GetDate(x))
    ensures Insert(h, s, x) == s + [x]
  {
  }

  /** Sorting a list that is already ascending leaves it as it is. */
  lemma {:induction false} SortSortedIsIdentity(h: Heap, s: seq<Ref>)
    requires Live(h, s) && Sorted(h, s)
    ensures SortByDate(h, s) == s
    decreases |s|
  {
    if s != [] {
      var init, last := s[..|s| - 1], s[|s| - 1];
      assert s == init + [last];
      assert SortByDate(h, s) == Insert(h, SortByDate(h, init), last);
      SortedInit(h, s);
      SortSortedIsIdentity(h, init);
      assert init != [] ==> OnOrBefore(h.GetDate(init[|init| - 1]), h.GetDate(last)) by {
        if init != [] {
          assert init[|init| - 1] == s[|s| - 2];
        }
      }
      InsertAtEnd(h, init, last);
    }
  }

  // ----- the tracker's operations -----

  /** An operation's boolean answer and the tracker after it. */
  datatype Outcome = Outcome(ok: bool, tracker: Tracker)

  /** `getExpenses`: a view over a copy of the list. The view constructor rejects a list
      that is not ascending by date, so this succeeds exactly when the list is sorted —
      always, while the invariant holds. */
  function GetExpenses(h: Heap, t: Tracker): (r: Result<View>)
    requires Live(h, t.expenses)
    ensures r.Ok? <==> Sorted(h, t.expenses)
    ensures Valid(h, t) ==> r.Ok? && ToList(r.value) == t.expenses
  {
    NewView(h, t.expenses)
  }

  /** `addExpense`: `false` and no change when the object is already in the list;
      otherwise `true`, the list gains exactly that object and is re-sorted by date. */
  function AddExpense(h: Heap, t: Tracker, x: Ref): (r: Outcome)
    requires Live(h, t.expenses) && x in h.objects
    ensures r.ok <==> x !in t.expenses
    ensures !r.ok ==> r.tracker == t
    ensures r.ok ==> multiset(r.tracker.expenses) == multiset(t.expenses) + multiset{x}
    ensures r.ok ==> |r.tracker.expenses| == |t.expenses| + 1
    ensures Live(h, r.tracker.expenses)
    ensures r.ok ==> Sorted(h, r.tracker.expenses)
    ensures Valid(h, t) ==> Valid(h, r.tracker)
  {
    if x in t.expenses then Outcome(false, t)
    else
      var s := SortByDate(h, t.expenses + [x]);
      assert multiset(t.expenses + [x]) == multiset(t.expenses) + multiset{x};
      assert Distinct(t.expenses) ==> Distinct(s) by {
        if Distinct(t.expenses) {
          assert multiset(t.expenses)[x] == 0;
        }
      }
      Outcome(true, Tracker(s))
  }

  /** On a valid tracker a successful add is an insertion at the split point: the old
      elements keep their order and the new one follows every same-date element. */
  lemma AddIsStableInsert(h: Heap, t: Tracker, x: Ref) returns (k: nat)
    requires Valid(h, t) && x in h.objects && x !in t.expenses
    ensures k <= |t.expenses|
    ensures AddExpense(h, t, x).tracker.expenses == t.expenses[..k] + [x] + t.expenses[k..]
    ensures forall i :: 0 <= i < k ==> OnOrBefore(h.GetDate(t.expenses[i]), h.GetDate(x))
    ensures forall i :: k <= i < |t.expenses| ==> !OnOrBefore(h.GetDate(t.expenses[i]), h.GetDate(x))
  {
    var s := t.expenses;
    assert (s + [x])[..|s + [x]| - 1] == s;
    SortSortedIsIdentity(h, s);
    k := InsertPosition(h, s, x);
  }

  /** `deleteExpense`: `true` exactly when the object is in the list; then its one
      occurrence is removed and the rest keep their order. Otherwise nothing changes. */
  function DeleteExpense(h: Heap, t: Tracker, x: Ref): (r: Outcome)
    requires Live(h, t.expenses)
    ensures r.ok <==> x in t.expenses
    ensures !r.ok ==> r.tracker == t
    ensures r.ok ==> r.tracker.expenses
                     == t.expenses[..IndexOf(t.expenses, x)] + t.expenses[IndexOf(t.expenses, x) + 1..]
    ensures r.ok ==> multiset(r.tracker.expenses) + multiset{x} == multiset(t.expenses)
    ensures Valid(h, t) ==> Valid(h, r.tracker) && x !in r.tracker.expenses
  {
    if x !in t.expenses then Outcome(false, t)
    else
      DeleteKeepsValid(h, t, x);
      Outcome(true, Tracker(RemoveFirst(t.expenses, x)))
  }

  /** Removing an object from a tracker removes one copy of it; from a valid tracker it
      leaves a valid tracker without the object. */
  lemma DeleteKeepsValid(h: Heap, t: Tracker, x: Ref)
    requires Live(h, t.expenses)
    ensures multiset(RemoveFirst(t.expenses, x)) + multiset{x} == multiset(t.expenses) || x !in t.expenses
    ensures Valid(h, t) ==> Valid(h, Tracker(RemoveFirst(t.expenses, x))) && x !in RemoveFirst(t.expenses, x)
  {
    var s := RemoveFirst(t.expenses, x);
    if x in t.expenses {
      RemoveFirstMultiset(t.expenses, x);
    }
    if !Valid(h, t) {
      return;
    }
    RemoveFirstIsSubseq(t.expenses, x);
    SubseqMembers(s, t.expenses);
    SubseqSorted(h, s, t.expenses);
    if x in t.expenses {
      RemoveFirstDistinct(t.expenses, x);
    }
  }

  /** `load`'s effect on the tracker: `addExpense` on each parsed object in file order. */
  function AddAll(h: Heap, t: Tracker, xs: seq<Ref>): (r: Tracker)
    requires Live(h, t.expenses) && Live(h, xs)
    ensures Live(h, r.expenses)
    ensures forall y :: y in r.expenses <==> y in t.expenses || y in xs
    ensures Valid(h, t) ==> Valid(h, r)
    decreases |xs|
  {
    if xs == [] then t
    else
      var t1 := AddExpense(h, t, xs[0]).tracker;
      assert forall y :: y in t1.expenses <==> y in t.expenses || y == xs[0] by {
        forall y ensures y in t1.expenses <==> y in t.expenses || y == xs[0] {
          assert y in t1.expenses <==> y in multiset(t1.expenses);
        }
      }
      AddAll(h, t1, xs[1..])
  }
}
