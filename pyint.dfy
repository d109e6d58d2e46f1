/**
 * Python's `int(text)` for base 10, and `str(n)` for its inverse.
 * `int` strips surrounding whitespace, accepts one leading `+` or `-`, and
 * allows single underscores between digits ("1_000"). Only ASCII digits are
 * modelled.
 *
 * The whitespace `int` skips is not quite `str.isspace`: CPython first maps
 * every non-ASCII space to ' ' and then skips only the ASCII blanks tab, line
 * feed, vertical tab, form feed, carriage return and space. The ASCII
 * separators U+001C..U+001F, which `isspace` accepts, make `int` raise.
 *
 * Both `int` and `str` refuse numbers of more than 4300 decimal digits
 * (`sys.int_info.default_max_str_digits`, since Python 3.11 and the
 * security releases 3.7.14, 3.8.14, 3.9.14 and 3.10.7).
 */
module PyInt {
  import opened Wrappers
  import opened PyText

  /** The most decimal digits `int` reads and `str` writes. */
  const MaxDigits: nat := 4300

  predicate IsDigit(c: char) {
    '0' <= c <= '9'
  }

  function DigitValue(c: char): (d: nat)
    requires IsDigit(c)
    ensures d < 10
  {
    c as int - '0' as int
  }

  function DigitChar(d: nat): (c: char)
    requires d < 10
    ensures IsDigit(c) && DigitValue(c) == d
  {
    ('0' as int + d) as char
  }

  predicate AllDigits(s: string) {
    forall i :: 0 <= i < |s| ==> IsDigit(s[i])
  }

  predicate HasDigit(s: string) {
    exists i :: 0 <= i < |s| && IsDigit(s[i])
  }

  /** The number a run of decimal digits denotes (leading zeros allowed). */
  function DigitsValue(s: string): nat
    requires AllDigits(s)
  {
    if s == [] then 0 else DigitsValue(s[..|s| - 1]) * 10 + DigitValue(s[|s| - 1])
  }

  /** Ten to the power `k`. */
  function Pow10(k: nat): (p: nat)
    ensures p >= 1
  {
    if k == 0 then 1 else 10 * Pow10(k - 1)
  }

  /** One more digit at the end multiplies the value by ten and adds the digit. */
  lemma DigitsValueSnoc(s: string, c: char)
    requires AllDigits(s) && IsDigit(c)
    ensures AllDigits(s + [c])
    ensures DigitsValue(s + [c]) == DigitsValue(s) * 10 + DigitValue(c)
  {
    assert (s + [c])[..|s|] == s;
  }

  lemma ShiftStep(x: int, p: int, y: int, d: int)
    ensures (x * p + y) * 10 + d == x * (p * 10) + (y * 10 + d)
  {
    assert (x * p) * 10 == x * (p * 10);
  }

  /** Appending digits shifts the value of the prefix left by their number. */
  lemma {:induction false} DigitsValueAppend(a: string, b: string)
    requires AllDigits(a) && AllDigits(b)
    ensures AllDigits(a + b)
    ensures DigitsValue(a + b) == DigitsValue(a) * Pow10(|b|) + DigitsValue(b)
    decreases |b|
  {
    if b == [] {
      assert a + b == a;
    } else {
      var b', c := b[..|b| - 1], b[|b| - 1];
      assert b == b' + [c];
      assert a + b == (a + b') + [c];
      DigitsValueAppend(a, b');
      DigitsValueSnoc(a + b', c);
      DigitsValueSnoc(b', c);
      ShiftStep(DigitsValue(a), Pow10(|b'|), DigitsValue(b'), DigitValue(c));
    }
  }

  /**
   * The digit part Python's `int` accepts: digits, with single underscores
   * allowed between two digits.
   */
  predicate WellFormedDigits(s: string) {
    |s| > 0 && IsDigit(s[0]) && IsDigit(s[|s| - 1])
    && (forall i :: 0 <= i < |s| ==> IsDigit(s[i]) || s[i] == '_')
    && (forall i :: 0 <= i < |s| - 1 && s[i] == '_' ==> IsDigit(s[i + 1]))
  }

  /** The digits of `s` with every underscore dropped. */
  function DropUnderscores(s: string): (r: string)
    requires forall i :: 0 <= i < |s| ==> IsDigit(s[i]) || s[i] == '_'
    ensures AllDigits(r) && |r| <= |s|
    ensures AllDigits(s) ==> r == s
  {
    if s == [] then []
    else if s[0] == '_' then DropUnderscores(s[1..])
    else [s[0]] + DropUnderscores(s[1..])
  }

  /** A character `int` skips at either end of its text. */
  predicate IntSpace(c: char) {
    IsSpace(c) && !('\U{1C}' <= c <= '\U{1F}')
  }

  /** The text `int` skips at the front. */
  function TrimStart(s: string): (r: string)
    ensures |r| <= |s| && r == s[|s| - |r|..]
    ensures forall i :: 0 <= i < |s| - |r| ==> IntSpace(s[i])
    ensures r != [] ==> !IntSpace(r[0])
  {
    if s != [] && IntSpace(s[0]) then TrimStart(s[1..]) else s
  }

  /** The text `int` skips at the back. */
  function TrimEnd(s: string): (r: string)
    ensures |r| <= |s| && r == s[..|r|]
    ensures forall i :: |r| <= i < |s| ==> IntSpace(s[i])
    ensures r != [] ==> !IntSpace(r[|r| - 1])
  {
    if s != [] && IntSpace(s[|s| - 1]) then TrimEnd(s[..|s| - 1]) else s
  }

  /** Number of characters `int` skips at the front. */
  function Skipped(s: string): nat
  {
    |s| - |TrimStart(s)|
  }

  /** The text between the blanks `int` skips at both ends. */
  function Trim(s: string): (r: string)
    ensures Skipped(s) + |r| <= |s|
    ensures r == s[Skipped(s)..Skipped(s) + |r|]
    ensures forall i :: 0 <= i < Skipped(s) ==> IntSpace(s[i])
    ensures forall i :: Skipped(s) + |r| <= i < |s| ==> IntSpace(s[i])
    ensures r != [] ==> !IntSpace(r[0]) && !IntSpace(r[|r| - 1])
  {
    var t := TrimStart(s);
    var r := TrimEnd(t);
    assert r != [] ==> r[0] == t[0];
    r
  }

  /** Text that neither starts nor ends with a blank `int` skips is its own trim. */
  lemma TrimNoop(s: string)
    requires s != [] ==> !IntSpace(s[0]) && !IntSpace(s[|s| - 1])
    ensures Trim(s) == s
  {
    assert TrimStart(s) == s;
    assert TrimEnd(s) == s;
  }

  /**
   * `int(s)`: `None` where Python raises `ValueError`. A result exists only
   * if the text contains at least one digit.
   */
  function ParseInt(s: string): (r: Option<int>)
    ensures r.Some? ==> HasDigit(s)
  {
    var t := Trim(s);
    var r := ParseNumber(t);
    if r.Some? then
      assert IsDigit(s[Skipped(s) + |t| - 1]);
      r
    else
      None
  }

  /**
   * The number `int` reads from the text left between the skipped blanks:
   * a sign, then a digit part of at most `MaxDigits` digits (underscores
   * not counted, leading zeros counted).
   */
  function ParseNumber(t: string): (r: Option<int>)
    ensures r.Some? ==> t != [] && IsDigit(t[|t| - 1])
  {
    if t == [] then None
    else
      var body := if t[0] == '-' || t[0] == '+' then t[1..] else t;
      if !WellFormedDigits(body) then None
      else
        var digits := DropUnderscores(body);
        if |digits| > MaxDigits then None
        else
          var v: int := DigitsValue(digits);
          Some(if t[0] == '-' then -v else v)
  }

  /** `str(n)` for a natural number: no sign, no leading zero. */
  function Decimal(n: nat): (r: string)
    ensures |r| > 0 && AllDigits(r)
    ensures DigitsValue(r) == n
    ensures |r| > 1 ==> r[0] != '0'
  {
    if n < 10 then [DigitChar(n)]
    else
      var r := Decimal(n / 10) + [DigitChar(n % 10)];
      assert r[..|r| - 1] == Decimal(n / 10);
      r
  }

  /** `str(i)` for any integer. */
  function IntToString(i: int): (r: string)
    ensures |r| > 0
  {
    if i < 0 then "-" + Decimal(-i) else Decimal(i)
  }

  /** A non-empty run of digits is a well-formed digit part. */
  lemma DigitsWellFormed(s: string)
    requires |s| > 0 && AllDigits(s)
    ensures WellFormedDigits(s)
    ensures DropUnderscores(s) == s
  {
  }

  /** A run of at most `MaxDigits` ASCII digits parses to the number it denotes. */
  lemma ParseDigits(s: string)
    requires 0 < |s| <= MaxDigits && AllDigits(s)
    ensures ParseInt(s) == Some(DigitsValue(s))
  {
    TrimNoop(s);
    assert Trim(s) == s;
    assert s[0] != '-' && s[0] != '+';
    DigitsWellFormed(s);
  }

  /** A run of more digits than the limit makes `int` raise. */
  lemma ParseDigitsTooLong(s: string)
    requires |s| > MaxDigits && AllDigits(s)
    ensures ParseInt(s) == None
  {
    DigitsWellFormed(s);
    assert s[0] != '-' && s[0] != '+';
    ParseTooLong(s);
  }

  /** `int(str(i)) == i` for every `i` that `str` can write. */
  lemma ParseIntToString(i: int)
    requires |Decimal(if i < 0 then -i else i)| <= MaxDigits
    ensures ParseInt(IntToString(i)) == Some(i)
  {
    if i < 0 {
      var s := IntToString(i);
      var body := Decimal(-i);
      assert s == "-" + body;
      assert s[|s| - 1] == body[|body| - 1];
      TrimNoop(s);
      assert Trim(s) == s;
      assert s[1..] == body;
      DigitsWellFormed(body);
    } else {
      ParseDigits(Decimal(i));
    }
  }

  /** Python's `int` rejects the empty and the all-blank string. */
  lemma ParseBlank(s: string)
    requires forall i :: 0 <= i < |s| ==> IsSpace(s[i])
    ensures ParseInt(s) == None
  {
    var t := Trim(s);
    if t != [] {
      assert t[0] == s[Skipped(s)];
      assert !IsDigit(t[0]) && t[0] != '-' && t[0] != '+';
    }
  }

  /**
   * A sign followed by digits: `-` negates the digits' value and `+` leaves
   * it as it is.
   */
  lemma ParseSigned(t: string)
    requires 1 < |t| <= MaxDigits + 1 && (t[0] == '-' || t[0] == '+') && AllDigits(t[1..])
    ensures ParseInt(t) == Some(if t[0] == '-' then -(DigitsValue(t[1..]) as int) else DigitsValue(t[1..]) as int)
  {
    assert t[|t| - 1] == t[1..][|t| - 2];
    TrimNoop(t);
    DigitsWellFormed(t[1..]);
  }

  /** Surrounding whitespace is ignored: `int(" 42\n") == 42`. */
  lemma ParseSpaced()
    ensures ParseInt(" 42\n") == Some(42)
  {
    ParseFortyTwo();
    ParseSpacedFortyTwo();
  }

  lemma ParseFortyTwo()
    ensures ParseInt("42") == Some(42)
  {
    assert DigitsValue("42") == 42 by { assert "42"[..1] == "4" && "4"[..0] == []; }
    ParseDigits("42");
  }

  lemma ParseSpacedFortyTwo()
    ensures ParseInt(" 42\n") == ParseInt("42")
  {
    assert " 42\n" == " " + "42" + "\n";
    ParseSurrounded(" ", "42", "\n");
  }

  /** Blanks that `int` skips may surround the text without changing what it reads. */
  lemma ParseSurrounded(pre: string, t: string, post: string)
    requires forall i :: 0 <= i < |pre| ==> IntSpace(pre[i])
    requires forall i :: 0 <= i < |post| ==> IntSpace(post[i])
    requires t != [] && !IntSpace(t[0]) && !IntSpace(t[|t| - 1])
    ensures ParseInt(pre + t + post) == ParseInt(t)
  {
    assert pre + t + post == pre + (t + post);
    TrimStartSkips(pre, t + post);
    TrimEndSkips(t, post);
    assert Trim(pre + t + post) == t;
    TrimNoop(t);
    ParseSameTrim(pre + t + post, t);
  }

  lemma {:induction false} TrimStartSkips(pre: string, t: string)
    requires forall i :: 0 <= i < |pre| ==> IntSpace(pre[i])
    requires t != [] && !IntSpace(t[0])
    ensures TrimStart(pre + t) == t
    decreases |pre|
  {
    if pre != [] {
      assert (pre + t)[1..] == pre[1..] + t;
      TrimStartSkips(pre[1..], t);
    } else {
      assert pre + t == t;
    }
  }

  lemma {:induction false} TrimEndSkips(t: string, post: string)
    requires forall i :: 0 <= i < |post| ==> IntSpace(post[i])
    requires t != [] && !IntSpace(t[|t| - 1])
    ensures TrimEnd(t + post) == t
    decreases |post|
  {
    if post != [] {
      var p' := post[..|post| - 1];
      assert (t + post)[..|t + post| - 1] == t + p';
      TrimEndSkips(t, p');
    } else {
      assert t + post == t;
    }
  }

  /** `int` sees only the text between the blanks it skips. */
  lemma ParseSameTrim(a: string, b: string)
    requires Trim(a) == Trim(b)
    ensures ParseInt(a) == ParseInt(b)
  {
  }

  /** `int("-7") == -7` and `int("+7") == 7` */
  lemma ParseSigns()
    ensures ParseInt("-7") == Some(-7)
    ensures ParseInt("+7") == Some(7)
  {
    assert Decimal(7) == "7";
    assert "-7"[1..] == "7" && "+7"[1..] == "7";
    ParseSigned("-7");
    ParseSigned("+7");
  }

  /** An unsigned digit part with no surrounding blanks parses to its digits' value. */
  lemma ParseUnsigned(s: string)
    requires WellFormedDigits(s) && |DropUnderscores(s)| <= MaxDigits
    ensures ParseInt(s) == Some(DigitsValue(DropUnderscores(s)))
  {
    TrimNoop(s);
  }

  /** Text without surrounding blanks whose digit part is malformed is rejected. */
  lemma ParseMalformed(s: string)
    requires s != [] && !IntSpace(s[0]) && !IntSpace(s[|s| - 1])
    requires !WellFormedDigits(if s[0] == '-' || s[0] == '+' then s[1..] else s)
    ensures ParseInt(s) == None
  {
    TrimNoop(s);
  }

  /** Digit-group underscores are accepted: `int("1_000") == 1000`. */
  lemma ParseUnderscores()
    ensures ParseInt("1_000") == Some(1000)
  {
    assert WellFormedDigits("1_000");
    ParseUnsigned("1_000");
    ThousandDigits();
    ThousandValue();
  }

  lemma ThousandDigits()
    ensures DropUnderscores("1_000") == "1" + "000"
  {
    assert "1_000" == ['1'] + "_000";
    DropLeadingDigit('1', "_000");
    assert DropUnderscores("_000") == DropUnderscores("000");
    assert DropUnderscores("000") == "000";
  }

  lemma DropLeadingDigit(d: char, rest: string)
    requires IsDigit(d)
    requires forall i :: 0 <= i < |rest| ==> IsDigit(rest[i]) || rest[i] == '_'
    ensures DropUnderscores([d] + rest) == [d] + DropUnderscores(rest)
  {
    assert ([d] + rest)[1..] == rest;
  }

  lemma ThousandValue()
    ensures DigitsValue("1" + "000") == 1000
  {
    DigitsValueAppend("1", "000");
    assert "000" == Decimal(0) + Decimal(0) + Decimal(0);
    assert DigitsValue("000") == 0 by {
      assert "000"[..2] == "00";
      assert "00"[..1] == "0";
    }
    assert DigitsValue("1") == 1 by {
      assert "1"[..0] == [];
    }
  }

  /** Doubled, leading or trailing underscores raise `ValueError`. */
  lemma ParseRejectsUnderscores()
    ensures ParseInt("1__0") == None
    ensures ParseInt("_1") == None
  {
    assert "1__0"[1] == '_' && !IsDigit("1__0"[2]);
    ParseMalformed("1__0");
    ParseMalformed("_1");
  }

  /** Inner blanks and decimal points raise `ValueError`. */
  lemma ParseRejectsOthers()
    ensures ParseInt("- 5") == None
    ensures ParseInt("3.5") == None
  {
    assert "- 5"[1..] == " 5";
    ParseMalformed("- 5");
    assert "3.5"[1] == '.';
    ParseMalformed("3.5");
  }

  /**
   * Every non-ASCII space is skipped, but the ASCII separators U+001C..U+001F
   * are not: `int("\xa05") == 5` while `int("\x1c5")` raises.
   */
  lemma ParseSeparators()
    ensures ParseInt("\U{A0}5") == Some(5)
    ensures ParseInt("\U{1C}5") == None
    ensures ParseInt("5\U{1F}") == None
  {
    ParseNoBreakFive();
    RejectSeparator("\U{1C}5");
    RejectSeparator("5\U{1F}");
  }

  lemma ParseNoBreakFive()
    ensures ParseInt("\U{A0}5") == Some(5)
  {
    assert ParseInt("5") == Some(5) by {
      assert DigitsValue("5") == 5 by { assert "5"[..0] == []; }
      ParseDigits("5");
    }
    assert "\U{A0}5" == "\U{A0}" + "5" + "";
    ParseSurrounded("\U{A0}", "5", "");
  }

  lemma RejectSeparator(s: string)
    requires s == "\U{1C}5" || s == "5\U{1F}"
    ensures ParseInt(s) == None
  {
    assert !WellFormedDigits(s);
    ParseMalformed(s);
  }

  /**
   * A well-formed digit part, signed or not, with more than `MaxDigits`
   * digits raises `ValueError`: `int("1" * 4301)` is refused.
   */
  lemma ParseTooLong(t: string)
    requires t != [] && !IntSpace(t[0]) && !IntSpace(t[|t| - 1])
    requires var body := if t[0] == '-' || t[0] == '+' then t[1..] else t;
      WellFormedDigits(body) && |DropUnderscores(body)| > MaxDigits
    ensures ParseInt(t) == None
  {
    TrimNoop(t);
  }
}
