/** `model.ExpenseTrackerView`: an immutable, date-sorted sequence of expense references
    with non-mutating refinements. The view holds references, not copies of the fields,
    so an edit made through any holder of an object is seen through every view of it. */
module Views {
  import opened Results
  import opened Dates
  import opened Categories
  import opened Expenses
  import opened Seqs

  /** Every reference in `s` is an allocated object (Java references are never dangling). */
  ghost predicate Live(h: Heap, s: seq<Ref>)
  {
    forall x :: x in s ==> x in h.objects
  }

  /** Ascending by date: no element is dated after a later one. */
  ghost predicate Sorted(h: Heap, s: seq<Ref>)
    requires Live(h, s)
  {
    forall i, j :: 0 <= i < j < |s| ==> OnOrBefore(h.GetDate(s[i]), h.GetDate(s[j]))
  }

  /** The check a constructor performs: each element is dated on or before the next. */
  function InOrder(h: Heap, s: seq<Ref>): (b: bool)
    requires Live(h, s)
    ensures b <==> Sorted(h, s)
    decreases |s|
  {
    if |s| <= 1 then true
    else
      var b := OnOrBefore(h.GetDate(s[0]), h.GetDate(s[1])) && InOrder(h, s[1..]);
      assert b ==> Sorted(h, s) by {
        if b {
          forall i, j | 0 <= i < j < |s|
            ensures OnOrBefore(h.GetDate(s[i]), h.GetDate(s[j]))
          {
            if i > 0 {
              assert s[i] == s[1..][i - 1] && s[j] == s[1..][j - 1];
            } else if j > 1 {
              assert s[j] == s[1..][j - 1];
            }
          }
        }
      }
      assert Sorted(h, s) ==> Sorted(h, s[1..]) by {
        if Sorted(h, s) {
          forall i, j | 0 <= i < j < |s| - 1
            ensures OnOrBefore(h.GetDate(s[1..][i]), h.GetDate(s[1..][j]))
          {
            assert s[1..][i] == s[i + 1] && s[1..][j] == s[j + 1];
          }
        }
      }
      b
  }

  /** A subsequence of a sorted sequence is sorted. */
  lemma {:induction false} SubseqSorted(h: Heap, a: seq<Ref>, b: seq<Ref>)
    requires Live(h, b) && Sorted(h, b) && Subseq(a, b)
    ensures Live(h, a) && Sorted(h, a)
    decreases |b|
  {
    SubseqMembers(a, b);
    if a != [] {
      assert Sorted(h, b[1..]) by {
        forall i, j | 0 <= i < j < |b| - 1
          ensures OnOrBefore(h.GetDate(b[1..][i]), h.GetDate(b[1..][j]))
        {
          assert b[1..][i] == b[i + 1] && b[1..][j] == b[j + 1];
        }
      }
      if a[0] == b[0] && Subseq(a[1..], b[1..]) {
        SubseqSorted(h, a[1..], b[1..]);
        SubseqMembers(a[1..], b[1..]);
        forall i, j | 0 <= i < j < |a|
          ensures OnOrBefore(h.GetDate(a[i]), h.GetDate(a[j]))
        {
          assert a[j] == a[1..][j - 1];
          if i > 0 {
            assert a[i] == a[1..][i - 1];
          } else {
            assert a[j] in b[1..];
            HeadIsEarliest(h, b, a[j]);
          }
        }
      } else {
        SubseqSorted(h, a, b[1..]);
      }
    }
  }

  /** In a sorted sequence the head is dated on or before every later element. */
  lemma HeadIsEarliest(h: Heap, b: seq<Ref>, y: Ref)
    requires Live(h, b) && Sorted(h, b) && |b| > 0 && y in b[1..]
    ensures OnOrBefore(h.GetDate(b[0]), h.GetDate(y))
  {
    var k :| 0 <= k < |b[1..]| && b[1..][k] == y;
    assert b[k + 1] == y;
  }

  datatype View = View(items: seq<Ref>)

  /** `new ExpenseTrackerView(expenses)`: a view over a copy of `expenses` when it is
      ascending by date; otherwise `IllegalArgumentException` — the input is never sorted
      silently. `toList` of the new view gives back `expenses` in order. */
  function NewView(h: Heap, expenses: seq<Ref>): (r: Result<View>)
    requires Live(h, expenses)
    ensures r.Ok? <==> Sorted(h, expenses)
    ensures r.Ok? ==> ToList(r.value) == expenses
    ensures r.Err? ==> r.error == IllegalArgument
  {
    if InOrder(h, expenses) then Ok(View(expenses)) else Err(IllegalArgument)
  }

  /** `toList`: the view's elements in order, as a new list. Sequences are values, so
      nothing done to the returned list can reach the view; the elements are the same
      objects the view holds. */
  function ToList(v: View): seq<Ref>
  {
    v.items
  }

  /** Holds for expenses of category `c`. */
  function HasCategory(h: Heap, c: Category): Ref -> bool
  {
    x => x in h.objects && h.GetCategory(x) == c
  }

  /** Holds for expenses dated within `[start, end]`, both ends included. */
  function InRange(h: Heap, start: Date, end: Date): Ref -> bool
  {
    x => x in h.objects && OnOrBefore(start, h.GetDate(x)) && OnOrBefore(h.GetDate(x), end)
  }

  /** `filterByCategory(c)`: exactly the elements of category `c`, each as often as in
      the receiver and in the receiver's order; a sorted view stays sorted. */
  function FilterByCategory(h: Heap, v: View, c: Category): (r: View)
    requires Live(h, v.items)
    ensures forall x :: x in r.items <==> x in v.items && h.GetCategory(x) == c
    ensures forall x :: multiset(r.items)[x] == if x in h.objects && h.GetCategory(x) == c then multiset(v.items)[x] else 0
    ensures Subseq(r.items, v.items)
    ensures Live(h, r.items)
    ensures Sorted(h, v.items) ==> Sorted(h, r.items)
  {
    var r := View(Filter(v.items, HasCategory(h, c)));
    FilterMultiset(v.items, HasCategory(h, c));
    FilterIsSubseq(v.items, HasCategory(h, c));
    assert forall x :: x in r.items ==> x in h.objects;
    assert Sorted(h, v.items) ==> Sorted(h, r.items) by {
      if Sorted(h, v.items) {
        SubseqSorted(h, r.items, v.items);
      }
    }
    r
  }

  /** `filterByDateRange(start, end)`: `IllegalArgumentException` when `end` is before
      `start`; otherwise exactly the elements dated within `[start, end]`, inclusive,
      each as often as in the receiver and in the receiver's order. */
  function FilterByDateRange(h: Heap, v: View, start: Date, end: Date): (r: Result<View>)
    requires Live(h, v.items)
    ensures r.Ok? <==> OnOrBefore(start, end)
    ensures r.Err? ==> r.error == IllegalArgument
    ensures r.Ok? ==> forall x :: x in r.value.items <==>
              x in v.items && OnOrBefore(start, h.GetDate(x)) && OnOrBefore(h.GetDate(x), end)
    ensures r.Ok? ==> forall x :: multiset(r.value.items)[x] == if InRange(h, start, end)(x) then multiset(v.items)[x] else 0
    ensures r.Ok? ==> Subseq(r.value.items, v.items) && Live(h, r.value.items)
    ensures r.Ok? && Sorted(h, v.items) ==> Sorted(h, r.value.items)
  {
    if !OnOrBefore(start, end) then Err(IllegalArgument)
    else
      var items := Filter(v.items, InRange(h, start, end));
      FilterMultiset(v.items, InRange(h, start, end));
      FilterIsSubseq(v.items, InRange(h, start, end));
      assert forall x :: x in items ==> x in h.objects;
      assert Sorted(h, v.items) ==> Sorted(h, items) by {
        if Sorted(h, v.items) {
          SubseqSorted(h, items, v.items);
        }
      }
      Ok(View(items))
  }

  /** `limitToAmount(n)`: `IllegalArgumentException` when `n` is negative; otherwise the
      first `min(n, size)` elements — none for 0, all when `n` reaches the size. */
  function LimitToAmount(v: View, n: int): (r: Result<View>)
    ensures r.Ok? <==> n >= 0
    ensures r.Err? ==> r.error == IllegalArgument
    ensures r.Ok? ==> |r.value.items| == (if n < |v.items| then n else |v.items|)
    ensures r.Ok? ==> r.value.items == v.items[..|r.value.items|]
  {
    if n < 0 then Err(IllegalArgument)
    else if n < |v.items| then Ok(View(v.items[..n]))
    else Ok(View(v.items))
  }

  /** On a sorted view the limit keeps the earliest elements, in order: what is kept is a
      subsequence of the view, still sorted, and no kept element is dated after a dropped one. */
  lemma LimitKeepsEarliest(h: Heap, v: View, n: int)
    requires Live(h, v.items) && Sorted(h, v.items) && n >= 0
    ensures var kept := LimitToAmount(v, n).value.items;
            && Subseq(kept, v.items) && Live(h, kept) && Sorted(h, kept)
            && forall i, j :: 0 <= i < |kept| <= j < |v.items| ==>
                 OnOrBefore(h.GetDate(kept[i]), h.GetDate(v.items[j]))
  {
    var kept := LimitToAmount(v, n).value.items;
    PrefixIsSubseq(v.items, |kept|);
    forall i, j | 0 <= i < |kept| <= j < |v.items|
      ensures OnOrBefore(h.GetDate(kept[i]), h.GetDate(v.items[j]))
    {
      assert kept[i] == v.items[i];
    }
  }

  /** Filtering by the same category twice is filtering once. */
  lemma FilterByCategoryIdempotent(h: Heap, v: View, c: Category)
    requires Live(h, v.items)
    ensures FilterByCategory(h, FilterByCategory(h, v, c), c) == FilterByCategory(h, v, c)
  {
    FilterIdempotent(v.items, HasCategory(h, c));
  }

  /** Filtering by one category and then by another leaves nothing. */
  lemma FilterByTwoCategoriesIsEmpty(h: Heap, v: View, c: Category, d: Category)
    requires Live(h, v.items) && c != d
    ensures ToList(FilterByCategory(h, FilterByCategory(h, v, c), d)) == []
  {
  }

  /** The category and date-range filters commute. */
  lemma CategoryAndDateFiltersCommute(h: Heap, v: View, c: Category, start: Date, end: Date)
    requires Live(h, v.items) && OnOrBefore(start, end)
    ensures FilterByDateRange(h, FilterByCategory(h, v, c), start, end)
            == Ok(FilterByCategory(h, FilterByDateRange(h, v, start, end).value, c))
  {
    FilterCommute(v.items, HasCategory(h, c), InRange(h, start, end));
  }

  /** `filterByCategory` is the one order-preserving selection of the category's elements:
      any subsequence of the receiver holding exactly those elements, as often as the
      receiver does, is the filter's result. */
  lemma FilterByCategoryUnique(h: Heap, v: View, c: Category, s: seq<Ref>)
    requires Live(h, v.items) && Subseq(s, v.items)
    requires forall x :: multiset(s)[x] == if x in h.objects && h.GetCategory(x) == c then multiset(v.items)[x] else 0
    ensures s == ToList(FilterByCategory(h, v, c))
  {
    FilterUnique(v.items, HasCategory(h, c), s);
  }

  /** `filterByDateRange` is the one order-preserving selection of the elements within
      the range: any subsequence of the receiver holding exactly those elements, as often
      as the receiver does, is the filter's result. */
  lemma FilterByDateRangeUnique(h: Heap, v: View, start: Date, end: Date, s: seq<Ref>)
    requires Live(h, v.items) && OnOrBefore(start, end) && Subseq(s, v.items)
    requires forall x :: multiset(s)[x] == if InRange(h, start, end)(x) then multiset(v.items)[x] else 0
    ensures FilterByDateRange(h, v, start, end) == Ok(View(s))
  {
    FilterUnique(v.items, InRange(h, start, end), s);
  }
}
