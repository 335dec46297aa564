/** The closed set of expense kinds (`model.Category`) and their display names. */
module Categories {
  import opened Results

  datatype Category =
    | Groceries | Transportation | Health | Education | Utilities | Rent
    | Dining | Entertainment | Travel | Other | Payment

  /** `Category.values()`: every constant exactly once, in declaration order. */
  function Values(): (r: seq<Category>)
    ensures |r| == 11
    ensures r[0] == Groceries && r[10] == Payment
    ensures forall c :: c in r
    ensures forall i, j :: 0 <= i < j < |r| ==> r[i] != r[j]
  {
    var r := [Groceries, Transportation, Health, Education, Utilities, Rent,
              Dining, Entertainment, Travel, Other, Payment];
    assert forall c :: c in r by {
      forall c ensures c in r {
        assert r[Ordinal(c)] == c;
      }
    }
    r
  }

  /** `Category.ordinal()`: the position of a constant in `Values()`. */
  function Ordinal(c: Category): (r: nat)
    ensures r < 11
  {
    match c
    case Groceries => 0
    case Transportation => 1
    case Health => 2
    case Education => 3
    case Utilities => 4
    case Rent => 5
    case Dining => 6
    case Entertainment => 7
    case Travel => 8
    case Other => 9
    case Payment => 10
  }

  /** `ordinal()` is the constant's index in `values()`. */
  lemma OrdinalIndexesValues(c: Category)
    ensures Values()[Ordinal(c)] == c
  {
  }

  /** `Category.name()`: the identifier as declared. */
  function Name(c: Category): string
  {
    match c
    case Groceries => "GROCERIES"
    case Transportation => "TRANSPORTATION"
    case Health => "HEALTH"
    case Education => "EDUCATION"
    case Utilities => "UTILITIES"
    case Rent => "RENT"
    case Dining => "DINING"
    case Entertainment => "ENTERTAINMENT"
    case Travel => "TRAVEL"
    case Other => "OTHER"
    case Payment => "PAYMENT"
  }

  predicate IsUpper(ch: char) { 'A' <= ch <= 'Z' }

  predicate IsLower(ch: char) { 'a' <= ch <= 'z' }

  /** The lowering `String.toLowerCase()` does to ASCII letters under a locale without
      special casing rules; other characters are kept. */
  function LowerChar(ch: char): char
  {
    if IsUpper(ch) then (ch as int - 'A' as int + 'a' as int) as char else ch
  }

  /** The inverse of `LowerChar` on ASCII letters; other characters are kept. */
  function UpperChar(ch: char): char
  {
    if IsLower(ch) then (ch as int - 'a' as int + 'A' as int) as char else ch
  }

  function LowerCase(s: string): string
  {
    seq(|s|, i requires 0 <= i < |s| => LowerChar(s[i]))
  }

  function UpperCase(s: string): string
  {
    seq(|s|, i requires 0 <= i < |s| => UpperChar(s[i]))
  }

  /** Every identifier is a non-empty run of upper-case ASCII letters. */
  lemma NameIsUpperLetters(c: Category)
    ensures |Name(c)| > 0
    ensures forall i :: 0 <= i < |Name(c)| ==> IsUpper(Name(c)[i])
  {
  }

  /** No two constants share an identifier. */
  lemma NameInjective(a: Category, b: Category)
    requires Name(a) == Name(b)
    ensures a == b
  {
    // The identifiers differ in their first or last letter, or in their length.
    assert Name(a)[0] == Name(b)[0];
    assert |Name(a)| == |Name(b)|;
    assert Name(a)[|Name(a)| - 1] == Name(b)[|Name(b)| - 1];
  }

  /** The display name: the identifier's first character followed by the rest lower-cased.
      It keeps the identifier's length and first character, the rest is lower-case, and
      upper-casing it gives the identifier back. */
  function DisplayName(c: Category): (r: string)
    ensures |r| == |Name(c)| && r[0] == Name(c)[0]
    ensures forall i :: 1 <= i < |r| ==> IsLower(r[i])
    ensures UpperCase(r) == Name(c)
  {
    NameIsUpperLetters(c);
    var n := Name(c);
    [n[0]] + LowerCase(n[1..])
  }

  /** The display names the category tests expect, written out. */
  function ExpectedDisplayName(c: Category): string
  {
    match c
    case Groceries => "Groceries"
    case Transportation => "Transportation"
    case Health => "Health"
    case Education => "Education"
    case Utilities => "Utilities"
    case Rent => "Rent"
    case Dining => "Dining"
    case Entertainment => "Entertainment"
    case Travel => "Travel"
    case Other => "Other"
    case Payment => "Payment"
  }

  /** The display names are the ones the category tests expect. */
  lemma DisplayNameValues(c: Category)
    ensures DisplayName(c) == ExpectedDisplayName(c)
  {
    // In groups: evaluating all eleven strings in one proof is too costly.
    match c {
      case Groceries | Transportation | Health => DisplayNamesA(c);
      case Education | Utilities | Rent => DisplayNamesB(c);
      case Dining | Entertainment | Travel => DisplayNamesC(c);
      case Other | Payment => DisplayNamesD(c);
    }
  }

  lemma DisplayNamesA(c: Category)
    requires c == Groceries || c == Transportation || c == Health
    ensures DisplayName(c) == ExpectedDisplayName(c)
  {
    // Each case names its constant literally so that the string is evaluated.
    match c {
      case Groceries => assert DisplayName(Groceries) == "Groceries";
      case Transportation => assert DisplayName(Transportation) == "Transportation";
      case Health => assert DisplayName(Health) == "Health";
    }
  }

  lemma DisplayNamesB(c: Category)
    requires c == Education || c == Utilities || c == Rent
    ensures DisplayName(c) == ExpectedDisplayName(c)
  {
    match c {
      case Education => assert DisplayName(Education) == "Education";
      case Utilities => assert DisplayName(Utilities) == "Utilities";
      case Rent => assert DisplayName(Rent) == "Rent";
    }
  }

  lemma DisplayNamesC(c: Category)
    requires c == Dining || c == Entertainment || c == Travel
    ensures DisplayName(c) == ExpectedDisplayName(c)
  {
    match c {
      case Dining => assert DisplayName(Dining) == "Dining";
      case Entertainment => assert DisplayName(Entertainment) == "Entertainment";
      case Travel => assert DisplayName(Travel) == "Travel";
    }
  }

  lemma DisplayNamesD(c: Category)
    requires c == Other || c == Payment
    ensures DisplayName(c) == ExpectedDisplayName(c)
  {
    match c {
      case Other => assert DisplayName(Other) == "Other";
      case Payment => assert DisplayName(Payment) == "Payment";
    }
  }

  /** Distinct constants have distinct display names. */
  lemma DisplayNameInjective(a: Category, b: Category)
    requires DisplayName(a) == DisplayName(b)
    ensures a == b
  {
    assert Name(a) == UpperCase(DisplayName(a)) == UpperCase(DisplayName(b)) == Name(b);
    NameInjective(a, b);
  }

  /** `Category.valueOf(s)`: the constant whose identifier is `s`, or
      `IllegalArgumentException` when there is none. */
  function FromName(s: string): (r: Result<Category>)
    ensures forall c :: r == Ok(c) <==> Name(c) == s
    ensures r.Err? <==> forall c :: Name(c) != s
  {
    var r := Lookup(s, Values());
    if r.Ok? then r
    else
      assert forall c :: Name(c) != s by {
        forall c ensures Name(c) != s {
          assert c in Values();
        }
      }
      r
  }

  /** Linear search for the constant named `s` among `cs`. */
  function Lookup(s: string, cs: seq<Category>): (r: Result<Category>)
    ensures r.Ok? ==> r.value in cs && Name(r.value) == s
    ensures r.Ok? ==> forall c :: Name(c) == s ==> c == r.value
    ensures r.Err? ==> forall c :: c in cs ==> Name(c) != s
  {
    if cs == [] then Err(IllegalArgument)
    else if Name(cs[0]) == s then
      assert forall c :: Name(c) == s ==> c == cs[0] by {
        forall c | Name(c) == s ensures c == cs[0] {
          NameInjective(c, cs[0]);
        }
      }
      Ok(cs[0])
    else Lookup(s, cs[1..])
  }
}
