/**
 * The case-insensitive lookups `__icontains` and `__iexact` as the SQLite
 * backend runs them: `LIKE ... ESCAPE '\'` with the parameter's `%`, `_` and
 * `\` escaped, so the parameter is matched literally. SQLite's `LIKE` folds
 * only the ASCII letters A-Z; every other character compares exactly.
 */
module SqlText {
  import opened PyText

  /** SQLite's case folding for `LIKE`: ASCII capitals only. */
  function FoldChar(c: char): (r: char)
    ensures 'A' <= c <= 'Z' ==> r as int == c as int + 32
    ensures !('A' <= c <= 'Z') ==> r == c
  {
    if 'A' <= c <= 'Z' then (c as int + 32) as char else c
  }

  function Fold(s: string): (r: string)
    ensures |r| == |s|
    ensures forall i :: 0 <= i < |s| ==> r[i] == FoldChar(s[i])
  {
    seq(|s|, i requires 0 <= i < |s| => FoldChar(s[i]))
  }

  /** `column LIKE '%' || escaped(text) || '%'`: `text` occurs in `column` up to ASCII case. */
  predicate LikeContains(column: string, text: string) {
    Contains(Fold(column), Fold(text))
  }

  /** `column LIKE escaped(text)`: equal up to ASCII case. */
  predicate LikeEquals(column: string, text: string) {
    Fold(column) == Fold(text)
  }

  /** Two texts that differ only in ASCII letter case match each other. */
  lemma {:induction false} LikeEqualsIgnoresCase(a: string, b: string)
    requires |a| == |b|
    requires forall i :: 0 <= i < |a| ==> a[i] == b[i] || FoldChar(a[i]) == FoldChar(b[i])
    ensures LikeEquals(a, b)
  {
    assert forall i :: 0 <= i < |a| ==> Fold(a)[i] == Fold(b)[i];
  }

  /**
   * `__icontains` does not see ASCII letter case on either side: changing
   * the case of the column or of the searched text keeps the answer.
   */
  lemma LikeContainsIgnoresCase(column: string, column': string, text: string, text': string)
    requires |column| == |column'| && forall i :: 0 <= i < |column| ==> FoldChar(column[i]) == FoldChar(column'[i])
    requires |text| == |text'| && forall i :: 0 <= i < |text| ==> FoldChar(text[i]) == FoldChar(text'[i])
    ensures LikeContains(column, text) == LikeContains(column', text')
  {
    LikeEqualsIgnoresCase(column, column');
    LikeEqualsIgnoresCase(text, text');
  }

  /**
   * `?area=söder` finds a listing in "Södermalm", but `?area=SÖDER` does
   * not: the non-ASCII capital is compared exactly.
   */
  lemma LikeContainsNonAscii()
    ensures LikeContains("S\U{F6}dermalm", "s\U{F6}der")
    ensures !LikeContains("S\U{F6}dermalm", "S\U{D6}DER")
  {
    var hay := Fold("S\U{F6}dermalm");
    assert hay == "s\U{F6}dermalm";
    assert Fold("s\U{F6}der") == "s\U{F6}der";
    assert OccursAt(hay, "s\U{F6}der", 0);
    var needle := Fold("S\U{D6}DER");
    assert needle[1] == '\U{D6}';
    assert '\U{D6}' !in hay;
  }

  /** Non-ASCII letters are matched exactly: "Å" and "å" differ under `LIKE`. */
  lemma LikeKeepsNonAsciiCase()
    ensures !LikeEquals("\U{C5}", "\U{E5}")
    ensures LikeEquals("VILLA", "villa")
  {
    assert Fold("\U{C5}")[0] == '\U{C5}';
    assert Fold("VILLA") == "villa";
  }
}
