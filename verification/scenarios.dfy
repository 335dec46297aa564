/** Properties that span several operations: the store's answers over a sequence of calls,
    the tests' fixtures, and how the console front end uses the store. */
module Scenarios {
  import opened Results
  import opened Dates
  import opened Categories
  import opened Expenses
  import opened Seqs
  import opened Views
  import opened Tracker

  // ----- add and delete over several calls -----

  /** A new tracker's snapshot is an empty view. */
  lemma EmptySnapshot(h: Heap)
    ensures GetExpenses(h, Empty()) == Ok(View([]))
  {
    assert Valid(h, Empty());
  }

  /** Adding one object twice: `true`, then `false`, and it is in the list exactly once. */
  lemma AddTwice(h: Heap, t: Tracker, x: Ref)
    requires Valid(h, t) && x in h.objects && x !in t.expenses
    ensures var first := AddExpense(h, t, x);
            var second := AddExpense(h, first.tracker, x);
            && first.ok && !second.ok
            && second.tracker == first.tracker
            && multiset(second.tracker.expenses)[x] == 1
  {
    var first := AddExpense(h, t, x);
    assert x in multiset(first.tracker.expenses);
  }

  /** Deleting a present object: `true` once, then `false` with no further change. */
  lemma DeleteTwice(h: Heap, t: Tracker, x: Ref)
    requires Valid(h, t) && x in t.expenses
    ensures var first := DeleteExpense(h, t, x);
            var second := DeleteExpense(h, first.tracker, x);
            && first.ok && !second.ok
            && |first.tracker.expenses| == |t.expenses| - 1
            && second.tracker == first.tracker
  {
  }

  /** A snapshot is not affected by later deletes: taking a view, deleting its first
      element and taking another view leaves the first view at the old size and the
      second one smaller by one. */
  lemma SnapshotIsolation(h: Heap, t: Tracker)
    requires Valid(h, t) && |t.expenses| > 0
    ensures var before := GetExpenses(h, t).value;
            var t' := DeleteExpense(h, t, ToList(before)[0]).tracker;
            var after := GetExpenses(h, t');
            && after.Ok?
            && |ToList(before)| == |t.expenses|
            && |ToList(after.value)| == |t.expenses| - 1
  {
    var before := GetExpenses(h, t).value;
    assert ToList(before)[0] in t.expenses;
  }

  /** Two snapshots hold the same objects: an amount set through the first one's element
      is the amount read through the second one's. */
  lemma SnapshotsShareObjects(h: Heap, t: Tracker, a: Decimal)
    requires Valid(h, t) && |t.expenses| > 0
    ensures var v1 := GetExpenses(h, t).value;
            var v2 := GetExpenses(h, t).value;
            var h' := SetAmount(h, ToList(v1)[0], a);
            h'.GetAmount(ToList(v2)[0]) == a
  {
  }

  // ----- identity, not field equality -----

  /** Objects with equal fields are distinct elements: adding a second object built
      from the same arguments succeeds, and the list then holds both. */
  lemma AddIsByIdentity(date: Date, category: Category, amount: Decimal, description: string)
    ensures var a1 := New(EmptyHeap(), date, category, amount, description);
            var a2 := New(a1.heap, date, category, amount, description);
            var h := a2.heap;
            var one := AddExpense(h, Empty(), a1.obj);
            var two := AddExpense(h, one.tracker, a2.obj);
            && h.objects[a1.obj] == h.objects[a2.obj]
            && one.ok && two.ok && |two.tracker.expenses| == 2
  {
    var a1 := New(EmptyHeap(), date, category, amount, description);
    var a2 := New(a1.heap, date, category, amount, description);
    AddToEmpty(a2.heap, a1.obj);
  }

  /** Deleting with an object that only has equal fields to the stored one fails and
      keeps the stored one. */
  lemma DeleteIsByIdentity(date: Date, category: Category, amount: Decimal, description: string)
    ensures var a1 := New(EmptyHeap(), date, category, amount, description);
            var a2 := New(a1.heap, date, category, amount, description);
            var h := a2.heap;
            var one := AddExpense(h, Empty(), a1.obj);
            var del := DeleteExpense(h, one.tracker, a2.obj);
            && h.objects[a1.obj] == h.objects[a2.obj]
            && one.ok && !del.ok && del.tracker.expenses == [a1.obj]
  {
    var a1 := New(EmptyHeap(), date, category, amount, description);
    var a2 := New(a1.heap, date, category, amount, description);
    AddToEmpty(a2.heap, a1.obj);
  }

  /** Into an empty tracker an add always succeeds and gives the one-element list. */
  lemma AddToEmpty(h: Heap, x: Ref)
    requires x in h.objects
    ensures AddExpense(h, Empty(), x).ok
    ensures AddExpense(h, Empty(), x).tracker.expenses == [x]
  {
    var t := AddExpense(h, Empty(), x).tracker;
    assert |t.expenses| == 1;
    assert t.expenses[0] in multiset(t.expenses);
  }

  /** An expense dated strictly before the one stored expense goes in front of it. */
  lemma AddBeforeSingle(h: Heap, y: Ref, x: Ref)
    requires x in h.objects && y in h.objects
    requires !OnOrBefore(h.GetDate(y), h.GetDate(x))
    ensures AddExpense(h, Tracker([y]), x).ok
    ensures AddExpense(h, Tracker([y]), x).tracker.expenses == [x, y]
  {
    assert x != y;
    assert [y] + [x] == [y, x];
    assert [y, x][..1] == [y];
    assert SortByDate(h, [y]) == [y] by {
      assert [y][..0] == [];
    }
    assert Insert(h, [y], x) == [x, y] by {
      assert [y][..0] == [];
    }
  }

  /** Adding the later expense first and the earlier one second still lists them in date
      order. */
  lemma AddOutOfOrder(h: Heap, x1: Ref, x2: Ref)
    requires x1 in h.objects && x2 in h.objects
    requires !OnOrBefore(h.GetDate(x2), h.GetDate(x1))
    ensures var t1 := AddExpense(h, Empty(), x2);
            var t2 := AddExpense(h, t1.tracker, x1);
            && t1.ok && t2.ok
            && GetExpenses(h, t2.tracker) == Ok(View([x1, x2]))
  {
    AddToEmpty(h, x2);
    assert AddExpense(h, Empty(), x2).tracker == Tracker([x2]);
    AddBeforeSingle(h, x2, x1);
  }

  // ----- the console front end -----

  /** The front end adds a newly constructed expense and treats `false` as impossible:
      a fresh object is never in the list, so the add always succeeds. This holds even
      when an in-place date edit has left the list out of order, and the add's sort then
      makes the tracker valid again. */
  lemma AddNewAlwaysSucceeds(h: Heap, t: Tracker, date: Date, category: Category,
                             amount: Decimal, description: string)
    requires h.Valid() && Live(h, t.expenses) && Distinct(t.expenses)
    ensures var a := New(h, date, category, amount, description);
            && Live(a.heap, t.expenses)
            && AddExpense(a.heap, t, a.obj).ok
            && Valid(a.heap, AddExpense(a.heap, t, a.obj).tracker)
  {
    var a := New(h, date, category, amount, description);
    assert a.obj !in t.expenses;
    var r := AddExpense(a.heap, t, a.obj).tracker;
    assert multiset(t.expenses)[a.obj] == 0;
    forall y ensures multiset(r.expenses)[y] <= 1 {
      assert multiset(r.expenses) == multiset(t.expenses) + multiset{a.obj};
    }
  }

  /** The front end deletes an element picked from a fresh listing and treats `false` as
      impossible: such an element is always present, so the delete always succeeds. */
  lemma DeleteListedAlwaysSucceeds(h: Heap, t: Tracker, i: nat)
    requires Valid(h, t) && i < |ToList(GetExpenses(h, t).value)|
    ensures DeleteExpense(h, t, ToList(GetExpenses(h, t).value)[i]).ok
  {
    assert ToList(GetExpenses(h, t).value)[i] == t.expenses[i];
  }

  /** Editing the category, amount or description of a stored expense in place leaves
      the tracker valid: only the date takes part in the invariant. */
  lemma NonDateEditsKeepValid(h: Heap, t: Tracker, x: Ref, c: Category, a: Decimal, d: string)
    requires Valid(h, t) && x in h.objects
    ensures Valid(SetCategory(h, x, c), t)
    ensures Valid(SetAmount(h, x, a), t)
    ensures Valid(SetDescription(h, x, d), t)
  {
    var hs := [SetCategory(h, x, c), SetAmount(h, x, a), SetDescription(h, x, d)];
    forall k | 0 <= k < 3 ensures Valid(hs[k], t) {
      assert forall y :: y in h.objects ==> hs[k].GetDate(y) == h.GetDate(y);
    }
    assert Valid(hs[0], t) && Valid(hs[1], t) && Valid(hs[2], t);
  }

  /** The front end's date edit as written: `setDate` straight on a stored object. Moving
      the earlier of two expenses past the later one leaves the list out of order, and the
      next listing is rejected by the view constructor. */
  lemma InPlaceDateEditBreaksListing()
    ensures var early := Expense(Date(2025, 1, 1), Groceries, Decimal(5000, 2), "Groceries");
            var late := Expense(Date(2025, 1, 2), Dining, Decimal(1500, 2), "Lunch");
            var h := Heap(map[Ref(0) := early, Ref(1) := late], 2);
            var t := Tracker([Ref(0), Ref(1)]);
            var h' := SetDate(h, Ref(0), Date(2025, 2, 1));
            && Valid(h, t)
            && !Valid(h', t)
            && GetExpenses(h', t) == Err(IllegalArgument)
  {
    var early := Expense(Date(2025, 1, 1), Groceries, Decimal(5000, 2), "Groceries");
    var late := Expense(Date(2025, 1, 2), Dining, Decimal(1500, 2), "Lunch");
    var h := Heap(map[Ref(0) := early, Ref(1) := late], 2);
    var t := Tracker([Ref(0), Ref(1)]);
    assert multiset(t.expenses) == multiset{Ref(0), Ref(1)};
    var h' := SetDate(h, Ref(0), Date(2025, 2, 1));
    assert !OnOrBefore(h'.GetDate(t.expenses[0]), h'.GetDate(t.expenses[1]));
  }

  /** The date edit done through the store: delete the object, set its date, add it back.
      The tracker stays valid, holds the same objects, and the object has its new date. */
  function EditDate(h: Heap, t: Tracker, x: Ref, date: Date): (r: (Heap, Tracker))
    requires Valid(h, t) && x in t.expenses
    ensures r.0.objects.Keys == h.objects.Keys
    ensures Valid(r.0, r.1)
    ensures r.0.GetDate(x) == date
    ensures multiset(r.1.expenses) == multiset(t.expenses)
    ensures forall y :: y in h.objects && y != x ==> r.0.objects[y] == h.objects[y]
  {
    var removed := DeleteExpense(h, t, x).tracker;
    var h' := SetDate(h, x, date);
    assert Valid(h', removed) by {
      assert forall y :: y in removed.expenses ==> y != x;
      assert Sorted(h', removed.expenses) by {
        forall i, j | 0 <= i < j < |removed.expenses|
          ensures OnOrBefore(h'.GetDate(removed.expenses[i]), h'.GetDate(removed.expenses[j]))
        {
          assert removed.expenses[i] != x && removed.expenses[j] != x;
        }
      }
    }
    var added := AddExpense(h', removed, x).tracker;
    (h', added)
  }

  // ----- the view tests' fixture -----

  /** The five-expense fixture, in date order: groceries Aug 2, dining Aug 11 ("McDonald's"),
      dining Aug 24, payment Aug 28, rent Sep 1. */
  function FixtureHeap(): Heap
  {
    Heap(map[
      Ref(0) := Expense(Date(2024, 8, 2), Groceries, Decimal(18000, 2), "Safeway"),
      Ref(1) := Expense(Date(2024, 9, 1), Rent, Decimal(230000, 2), "Andrew Apartments"),
      Ref(2) := Expense(Date(2024, 8, 11), Dining, Decimal(1272, 2), "McDonald's"),
      Ref(3) := Expense(Date(2024, 8, 24), Dining, Decimal(1602, 2), "Subway"),
      Ref(4) := Expense(Date(2024, 8, 28), Payment, Decimal(20000, 2), "Payment to Credit Card")
    ], 5)
  }

  function FixtureList(): seq<Ref>
  {
    [Ref(0), Ref(2), Ref(3), Ref(4), Ref(1)]
  }

  /** The fixture's dates and categories, looked up. */
  lemma FixtureFields()
    ensures var h := FixtureHeap();
            && h.GetDate(Ref(0)) == Date(2024, 8, 2) && h.GetCategory(Ref(0)) == Groceries
            && h.GetDate(Ref(1)) == Date(2024, 9, 1) && h.GetCategory(Ref(1)) == Rent
            && h.GetDate(Ref(2)) == Date(2024, 8, 11) && h.GetCategory(Ref(2)) == Dining
            && h.GetDate(Ref(3)) == Date(2024, 8, 24) && h.GetCategory(Ref(3)) == Dining
            && h.GetDate(Ref(4)) == Date(2024, 8, 28) && h.GetCategory(Ref(4)) == Payment
  {
  }

  /** The fixture list is ascending by date, so the view constructor accepts it. */
  lemma FixtureIsSorted()
    ensures NewView(FixtureHeap(), FixtureList()) == Ok(View(FixtureList()))
  {
    var h, s := FixtureHeap(), FixtureList();
    FixtureFields();
    assert InOrder(h, s[4..]);
    assert InOrder(h, s[3..]) by { assert s[3..][1..] == s[4..]; }
    assert InOrder(h, s[2..]) by { assert s[2..][1..] == s[3..]; }
    assert InOrder(h, s[1..]) by { assert s[1..][1..] == s[2..]; }
    assert InOrder(h, s);
  }

  /** DINING picks the two dining expenses, Aug 11 then Aug 24. */
  lemma FixtureDining()
    ensures FilterByCategory(FixtureHeap(), View(FixtureList()), Dining) == View([Ref(2), Ref(3)])
  {
    var h, s := FixtureHeap(), FixtureList();
    var p := HasCategory(h, Dining);
    FixtureFields();
    assert Filter(s[4..], p) == [];
    assert Filter(s[3..], p) == [] by { assert s[3..][1..] == s[4..]; }
    assert Filter(s[2..], p) == [Ref(3)] by { assert s[2..][1..] == s[3..]; }
    assert Filter(s[1..], p) == [Ref(2), Ref(3)] by { assert s[1..][1..] == s[2..]; }
    assert Filter(s, p) == [Ref(2), Ref(3)];
  }

  /** Both dining expenses fall within August 2024, bounds included. */
  lemma FixtureDiningInAugust()
    ensures FilterByDateRange(FixtureHeap(), View([Ref(2), Ref(3)]), Date(2024, 8, 1), Date(2024, 8, 31))
            == Ok(View([Ref(2), Ref(3)]))
  {
    var h := FixtureHeap();
    FixtureFields();
    assert Filter([Ref(2), Ref(3)], InRange(h, Date(2024, 8, 1), Date(2024, 8, 31))) == [Ref(2), Ref(3)];
  }

  /** The last step of the chained query: the first of the two August dining expenses
      is the Aug-11 McDonald's one. */
  lemma FixtureFirst()
    ensures LimitToAmount(View([Ref(2), Ref(3)]), 1) == Ok(View([Ref(2)]))
    ensures FixtureHeap().GetDescription(Ref(2)) == "McDonald's"
  {
    assert [Ref(2), Ref(3)][..1] == [Ref(2)];
  }

  /** The chained query DINING, then August 2024, then the first one, on the view of the
      fixture: exactly one expense is left, of category DINING, described "McDonald's". */
  lemma FixtureChain()
    ensures var h := FixtureHeap();
            && NewView(h, FixtureList()).Ok?
            && var dining := FilterByCategory(h, NewView(h, FixtureList()).value, Dining);
               && FilterByDateRange(h, dining, Date(2024, 8, 1), Date(2024, 8, 31)).Ok?
               && var august := FilterByDateRange(h, dining, Date(2024, 8, 1), Date(2024, 8, 31)).value;
                  && LimitToAmount(august, 1).Ok?
                  && var first := ToList(LimitToAmount(august, 1).value);
                     && |first| == 1
                     && h.GetCategory(first[0]) == Dining
                     && h.GetDescription(first[0]) == "McDonald's"
  {
    FixtureIsSorted();
    FixtureDining();
    FixtureDiningInAugust();
    FixtureFirst();
    FixtureFields();
  }
}
