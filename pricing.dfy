/**
 * The listing price is stored as display text such as "24 900 000 kr".
 * `parse_price` (api/views.py) lower-cases it, deletes every "kr", ASCII
 * space and no-break space, and reads what is left with Python's `int`;
 * any failure reads as 0.
 */
module Pricing {
  import opened Wrappers
  import opened PyText
  import opened PyInt

  /** U+00A0, the no-break space used as a thousands separator. */
  const Nbsp: char := '\U{A0}'

  /** `price_str.lower().replace('kr', '').replace(' ', '').replace('\xa0', '')` */
  function CleanPrice(s: string): string {
    RemoveAll(RemoveAll(RemoveAll(Lower(s), "kr"), " "), [Nbsp])
  }

  /** `parse_price`: the integer the cleaned text denotes, or 0 when `int` raises. */
  function ParsePrice(s: string): (r: int)
    ensures !HasDigit(s) ==> r == 0
  {
    CleanKeepsDigitFree(s);
    match ParseInt(CleanPrice(s))
    case Some(v) => v
    case None => 0
  }

  /** Cleaning only deletes characters and lower-casing creates no digit. */
  lemma CleanKeepsDigitFree(s: string)
    ensures HasDigit(CleanPrice(s)) ==> HasDigit(s)
  {
    var low := Lower(s);
    var clean := CleanPrice(s);
    if HasDigit(clean) {
      var i :| 0 <= i < |clean| && IsDigit(clean[i]);
      assert clean[i] in clean;
      assert clean[i] in low;
      var j :| 0 <= j < |low| && low[j] == clean[i];
      assert LowerChar(s[j]) == clean[i];
      assert IsDigit(s[j]);
    }
  }

  /** Three digits with leading zeros: one thousands group. */
  function Group(k: nat): (r: string)
    requires k < 1000
    ensures |r| == 3 && AllDigits(r)
    ensures DigitsValue(r) == k
  {
    var r := [DigitChar(k / 100), DigitChar(k / 10 % 10), DigitChar(k % 10)];
    assert r[..2][..1] == [DigitChar(k / 100)];
    assert r[..2] == [DigitChar(k / 100), DigitChar(k / 10 % 10)];
    assert r[..2][..1][..0] == [];
    assert DigitsValue(r[..2][..1]) == k / 100;
    assert DigitsValue(r[..2]) == k / 100 * 10 + k / 10 % 10;
    assert k / 10 == k / 100 * 10 + k / 10 % 10;
    assert k == k / 10 * 10 + k % 10;
    r
  }

  /** The digits of `n` split into thousands groups by `sep`, as listings display prices. */
  function Grouped(n: nat, sep: char): (r: string)
    ensures |r| > 0
    ensures forall i :: 0 <= i < |r| ==> IsDigit(r[i]) || r[i] == sep
    ensures IsDigit(r[0]) && IsDigit(r[|r| - 1])
  {
    if n < 1000 then Decimal(n) else Grouped(n / 1000, sep) + [sep] + Group(n % 1000)
  }

  /** The same digits with no separator. */
  function Ungrouped(n: nat): (r: string)
    ensures |r| > 0 && AllDigits(r)
    ensures DigitsValue(r) == n
  {
    if n < 1000 then Decimal(n)
    else
      var r := Ungrouped(n / 1000) + Group(n % 1000);
      DigitsValueAppend(Ungrouped(n / 1000), Group(n % 1000));
      assert Pow10(3) == 1000;
      r
  }

  /** A display price: grouped digits, a space and the currency suffix. */
  function Display(n: nat, sep: char, suffix: string): string {
    Grouped(n, sep) + " " + suffix
  }

  /** Deleting the separator from grouped digits leaves the plain digits. */
  lemma {:induction false} RemoveSeparator(n: nat, sep: char)
    requires !IsDigit(sep)
    ensures RemoveAll(Grouped(n, sep), [sep]) == Ungrouped(n)
    decreases n
  {
    if n < 1000 {
      RemoveAllAbsent(Decimal(n), [sep]);
    } else {
      var head := Grouped(n / 1000, sep);
      var g := Group(n % 1000);
      RemoveCharAppend(head + [sep], g, sep);
      RemoveCharAppend(head, [sep], sep);
      RemoveSeparator(n / 1000, sep);
      assert RemoveAll([sep], [sep]) == [];
      RemoveAllAbsent(g, [sep]);
    }
  }

  /** Deleting a character that does not occur in grouped digits changes nothing. */
  lemma RemoveOther(n: nat, sep: char, other: char)
    requires !IsDigit(other) && other != sep
    ensures RemoveAll(Grouped(n, sep), [other]) == Grouped(n, sep)
  {
    RemoveAllAbsent(Grouped(n, sep), [other]);
  }

  /** Lower-casing the display text only lower-cases the suffix. */
  lemma LowerDisplay(n: nat, sep: char, suffix: string)
    requires sep == ' ' || sep == Nbsp
    requires Lower(suffix) == "kr"
    ensures Lower(Display(n, sep, suffix)) == (Grouped(n, sep) + " ") + "kr"
  {
    var g := Grouped(n, sep);
    assert Display(n, sep, suffix) == (g + " ") + suffix;
    LowerNoop(g + " ");
    assert Lower((g + " ") + suffix) == Lower(g + " ") + Lower(suffix);
  }

  /** Deleting "kr" and then spaces from text that holds no 'k' before its "kr". */
  lemma DropKrAndSpaces(g: string)
    requires 'k' !in g
    ensures RemoveAll(RemoveAll((g + " ") + "kr", "kr"), " ") == RemoveAll(g, " ")
  {
    RemoveAllAppend(g + " ", "kr", "kr");
    assert RemoveAll("kr", "kr") == [];
    assert (g + " ") + [] == g + " ";
    RemoveCharAppend(g, " ", ' ');
    assert RemoveAll(" ", " ") == [];
  }

  /** Lower-casing the display text and deleting "kr" and spaces leaves the grouped digits without spaces. */
  lemma DropSuffix(n: nat, sep: char, suffix: string)
    requires sep == ' ' || sep == Nbsp
    requires Lower(suffix) == "kr"
    ensures RemoveAll(RemoveAll(Lower(Display(n, sep, suffix)), "kr"), " ") == RemoveAll(Grouped(n, sep), " ")
  {
    LowerDisplay(n, sep, suffix);
    var g := Grouped(n, sep);
    assert 'k' !in g;
    DropKrAndSpaces(g);
  }

  /** Deleting spaces and no-break spaces from grouped digits leaves the plain digits. */
  lemma DropSeparators(n: nat, sep: char)
    requires sep == ' ' || sep == Nbsp
    ensures RemoveAll(RemoveAll(Grouped(n, sep), " "), [Nbsp]) == Ungrouped(n)
  {
    if sep == ' ' {
      RemoveSeparator(n, ' ');
      RemoveAllAbsent(Ungrouped(n), [Nbsp]);
    } else {
      RemoveOther(n, sep, ' ');
      RemoveSeparator(n, Nbsp);
    }
  }

  /**
   * Round trip of the display format: a price shown with space or no-break
   * space thousands separators and a "kr" suffix in any letter case parses
   * back to its value, as long as it has no more digits than `int` accepts.
   */
  lemma DisplayRoundTrip(n: nat, sep: char, suffix: string)
    requires sep == ' ' || sep == Nbsp
    requires Lower(suffix) == "kr"
    requires |Ungrouped(n)| <= MaxDigits
    ensures ParsePrice(Display(n, sep, suffix)) == n
  {
    DropSuffix(n, sep, suffix);
    DropSeparators(n, sep);
    assert CleanPrice(Display(n, sep, suffix)) == Ungrouped(n);
    ParseDigits(Ungrouped(n));
  }

  /**
   * A displayed price with more digits than `int` accepts makes `int` raise,
   * so `parse_price` falls back to 0.
   */
  lemma DisplayTooLong(n: nat, sep: char, suffix: string)
    requires sep == ' ' || sep == Nbsp
    requires Lower(suffix) == "kr"
    requires |Ungrouped(n)| > MaxDigits
    ensures ParsePrice(Display(n, sep, suffix)) == 0
  {
    DropSuffix(n, sep, suffix);
    DropSeparators(n, sep);
    assert CleanPrice(Display(n, sep, suffix)) == Ungrouped(n);
    ParseDigitsTooLong(Ungrouped(n));
  }

  /** "2 500 000 kr" reads as 2500000. */
  lemma ParseDisplayedExample()
    ensures ParsePrice("2 500 000 kr") == 2500000
  {
    assert Lower("kr") == "kr";
    DisplayedExampleShown();
    RemoveSeparator(2500000, ' ');
    DisplayRoundTrip(2500000, ' ', "kr");
  }

  lemma DisplayedExampleShown()
    ensures Display(2500000, ' ', "kr") == "2 500 000 kr"
  {
    DisplayedExampleHead();
    assert Group(0) == "000";
  }

  lemma DisplayedExampleHead()
    ensures Grouped(2500, ' ') == "2 500"
  {
    assert Grouped(2, ' ') == "2";
    assert Group(500) == "500";
  }

  /** "3 000 000 kr" reads as 3000000. */
  lemma ThreeMillionExample()
    ensures ParsePrice("3 000 000 kr") == 3000000
  {
    assert Lower("kr") == "kr";
    ThreeMillionShown();
    RemoveSeparator(3000000, ' ');
    DisplayRoundTrip(3000000, ' ', "kr");
  }

  lemma ThreeMillionShown()
    ensures Display(3000000, ' ', "kr") == "3 000 000 kr"
  {
    ThreeMillionHead();
    assert Group(0) == "000";
  }

  lemma ThreeMillionHead()
    ensures Grouped(3000, ' ') == "3 000"
  {
    assert Decimal(3) == "3";
    assert Group(0) == "000";
  }

  /** "24 900 000 kr", the example price the listing model stores, reads as 24900000. */
  lemma ParseStoredExample()
    ensures ParsePrice("24 900 000 kr") == 24900000
  {
    assert Lower("kr") == "kr";
    StoredExampleShown();
    RemoveSeparator(24900000, ' ');
    DisplayRoundTrip(24900000, ' ', "kr");
  }

  lemma StoredExampleShown()
    ensures Display(24900000, ' ', "kr") == "24 900 000 kr"
  {
    StoredExampleHead();
    assert Group(0) == "000";
  }

  lemma StoredExampleHead()
    ensures Grouped(24900, ' ') == "24 900"
  {
    assert Decimal(2) == "2";
    assert Grouped(24, ' ') == "24";
    assert Group(900) == "900";
  }

  /** Text that asks for a price instead of stating one reads as 0. */
  lemma ParseUnpricedExample()
    ensures ParsePrice("Pris på begäran") == 0
  {
    var s := "Pris på begäran";
    assert forall i :: 0 <= i < |s| ==> !IsDigit(s[i]);
    assert !HasDigit(s);
  }
}
