/** `model.Expense`: a mutable four-field object. Java objects are modelled as references
    into a heap of field records, so that two objects with equal fields stay distinct —
    `Expense` overrides neither `equals` nor `compareTo`, and every collection compares
    expenses by identity. */
module Expenses {
  import opened Dates
  import opened Categories

  /** A `BigDecimal`: the value `unscaled × 10^(-scale)`. */
  datatype Decimal = Decimal(unscaled: int, scale: nat)

  /** The state of one `Expense` object: its four fields. */
  datatype Expense = Expense(date: Date, category: Category, amount: Decimal, description: string)

  /** A reference to an `Expense` object; equal references mean the same object. */
  datatype Ref = Ref(id: nat)

  /** The `Expense` objects allocated so far and the next unused reference. */
  datatype Heap = Heap(objects: map<Ref, Expense>, next: nat)
  {
    /** Every allocated reference lies below `next`, so `Ref(next)` is fresh. */
    ghost predicate Valid()
    {
      forall x :: x in objects ==> x.id < next
    }

    function GetDate(x: Ref): Date
      requires x in objects
    {
      objects[x].date
    }

    function GetCategory(x: Ref): Category
      requires x in objects
    {
      objects[x].category
    }

    function GetAmount(x: Ref): Decimal
      requires x in objects
    {
      objects[x].amount
    }

    function GetDescription(x: Ref): string
      requires x in objects
    {
      objects[x].description
    }
  }

  function EmptyHeap(): (h: Heap)
    ensures h.Valid() && h.objects == map[]
  {
    Heap(map[], 0)
  }

  /** The heap after `new Expense(...)`, and the new object. */
  datatype Allocation = Allocation(heap: Heap, obj: Ref)

  /** `new Expense(date, category, amount, description)`: a fresh object whose getters
      return exactly the four arguments; no argument is validated, and no existing object
      changes. */
  function New(h: Heap, date: Date, category: Category, amount: Decimal, description: string): (a: Allocation)
    requires h.Valid()
    ensures a.heap.Valid()
    ensures a.obj !in h.objects && a.obj in a.heap.objects
    ensures a.heap.GetDate(a.obj) == date && a.heap.GetCategory(a.obj) == category
    ensures a.heap.GetAmount(a.obj) == amount && a.heap.GetDescription(a.obj) == description
    ensures a.heap.objects.Keys == h.objects.Keys + {a.obj}
    ensures forall y :: y in h.objects ==> a.heap.objects[y] == h.objects[y]
  {
    var x := Ref(h.next);
    Allocation(Heap(h.objects[x := Expense(date, category, amount, description)], h.next + 1), x)
  }

  /** Nothing but object `x` changes: the same objects exist and every other one is as before. */
  ghost predicate OnlyChanged(h: Heap, h': Heap, x: Ref)
    requires x in h.objects
  {
    && h'.Valid() == h.Valid()
    && h'.next == h.next
    && h'.objects.Keys == h.objects.Keys
    && forall y :: y in h.objects && y != x ==> h'.objects[y] == h.objects[y]
  }

  /** `setDate`: afterwards `getDate` returns `date` and the other three fields are as before. */
  function SetDate(h: Heap, x: Ref, date: Date): (h': Heap)
    requires x in h.objects
    ensures OnlyChanged(h, h', x)
    ensures h'.GetDate(x) == date
    ensures h'.GetCategory(x) == h.GetCategory(x) && h'.GetAmount(x) == h.GetAmount(x)
    ensures h'.GetDescription(x) == h.GetDescription(x)
  {
    h.(objects := h.objects[x := h.objects[x].(date := date)])
  }

  /** `setCategory`: afterwards `getCategory` returns `category`, the rest is as before. */
  function SetCategory(h: Heap, x: Ref, category: Category): (h': Heap)
    requires x in h.objects
    ensures OnlyChanged(h, h', x)
    ensures h'.GetCategory(x) == category
    ensures h'.GetDate(x) == h.GetDate(x) && h'.GetAmount(x) == h.GetAmount(x)
    ensures h'.GetDescription(x) == h.GetDescription(x)
  {
    h.(objects := h.objects[x := h.objects[x].(category := category)])
  }

  /** `setAmount`: no validation, so zero and negative amounts are stored as given. */
  function SetAmount(h: Heap, x: Ref, amount: Decimal): (h': Heap)
    requires x in h.objects
    ensures OnlyChanged(h, h', x)
    ensures h'.GetAmount(x) == amount
    ensures h'.GetDate(x) == h.GetDate(x) && h'.GetCategory(x) == h.GetCategory(x)
    ensures h'.GetDescription(x) == h.GetDescription(x)
  {
    h.(objects := h.objects[x := h.objects[x].(amount := amount)])
  }

  /** `setDescription`: any string, the empty one included, is stored as given. */
  function SetDescription(h: Heap, x: Ref, description: string): (h': Heap)
    requires x in h.objects
    ensures OnlyChanged(h, h', x)
    ensures h'.GetDescription(x) == description
    ensures h'.GetDate(x) == h.GetDate(x) && h'.GetCategory(x) == h.GetCategory(x)
    ensures h'.GetAmount(x) == h.GetAmount(x)
  {
    h.(objects := h.objects[x := h.objects[x].(description := description)])
  }

  /** Setters are last-write-wins: of two `setCategory` calls only the second is seen. */
  lemma SetCategoryTwice(h: Heap, x: Ref, a: Category, b: Category)
    requires x in h.objects
    ensures SetCategory(SetCategory(h, x, a), x, b) == SetCategory(h, x, b)
  {
  }

  /** Two objects built from the same arguments are still two objects. */
  lemma NewIsNotFieldEquality(h: Heap, date: Date, category: Category, amount: Decimal, description: string)
    requires h.Valid()
    ensures var a1 := New(h, date, category, amount, description);
            var a2 := New(a1.heap, date, category, amount, description);
            a1.obj != a2.obj && a2.heap.objects[a1.obj] == a2.heap.objects[a2.obj]
  {
  }

  // ----- toString -----

  const Tab: char := '\t'

  /** `toString`: date, display name, currency-formatted amount and description, separated
      by tabs. Rendering the date (`LocalDate.toString`) and the amount (the Canadian
      currency formatter) is library code, passed in as `dateText` and `money`. */
  function Render(e: Expense, dateText: Date -> string, money: Decimal -> string): string
  {
    dateText(e.date) + [Tab] + DisplayName(e.category) + [Tab] + money(e.amount) + [Tab] + e.description
  }

  /** Splits `s` at every tab. */
  function SplitTabs(s: string): (r: seq<string>)
    ensures |r| >= 1
  {
    if s == [] then [""]
    else if s[0] == Tab then [""] + SplitTabs(s[1..])
    else
      var rest := SplitTabs(s[1..]);
      [[s[0]] + rest[0]] + rest[1..]
  }

  /** A tab-free field followed by a tab splits off as one field. */
  lemma {:induction false} SplitField(a: string, b: string)
    requires Tab !in a
    ensures SplitTabs(a + [Tab] + b) == [a] + SplitTabs(b)
    decreases |a|
  {
    if a == [] {
      assert a + [Tab] + b == [Tab] + b;
      assert ([Tab] + b)[1..] == b;
    } else {
      assert (a + [Tab] + b)[1..] == a[1..] + [Tab] + b;
      SplitField(a[1..], b);
      assert [a[0]] + a[1..] == a;
    }
  }

  /** A tab-free string is one field. */
  lemma {:induction false} SplitNoTab(a: string)
    requires Tab !in a
    ensures SplitTabs(a) == [a]
    decreases |a|
  {
    if a != [] {
      SplitNoTab(a[1..]);
      assert [a[0]] + a[1..] == a;
    }
  }

  /** When neither the rendered date nor the rendered amount holds a tab, the first three
      tab-separated fields of `toString` are date, display name and amount, and the rest
      is the description, split at its own tabs: a description is stored and rendered
      as given, inner tabs included. */
  lemma RenderFields(e: Expense, dateText: Date -> string, money: Decimal -> string)
    requires Tab !in dateText(e.date) && Tab !in money(e.amount)
    ensures SplitTabs(Render(e, dateText, money))
            == [dateText(e.date), DisplayName(e.category), money(e.amount)] + SplitTabs(e.description)
  {
    var d, n, m, s := dateText(e.date), DisplayName(e.category), money(e.amount), e.description;
    DisplayNameHasNoTab(e.category);
    var tail2 := m + [Tab] + s;
    var tail1 := n + [Tab] + tail2;
    assert Render(e, dateText, money) == d + [Tab] + tail1 by {
      assert d + [Tab] + n + [Tab] + m + [Tab] + s == d + [Tab] + (n + [Tab] + (m + [Tab] + s));
    }
    SplitField(m, s);
    SplitField(n, tail2);
    SplitField(d, tail1);
  }

  /** A display name holds no tab: it is made of letters only. */
  lemma DisplayNameHasNoTab(c: Category)
    ensures Tab !in DisplayName(c)
  {
  }

  /** With a tab-free description, `toString` has exactly four tab-separated fields:
      date, display name, amount and description, in that order. */
  lemma RenderFieldsTabFree(e: Expense, dateText: Date -> string, money: Decimal -> string)
    requires Tab !in dateText(e.date) && Tab !in money(e.amount) && Tab !in e.description
    ensures SplitTabs(Render(e, dateText, money))
            == [dateText(e.date), DisplayName(e.category), money(e.amount), e.description]
  {
    RenderFields(e, dateText, money);
    SplitNoTab(e.description);
  }
}
