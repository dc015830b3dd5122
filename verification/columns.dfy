/**
 * The column renamer of the /predict handler: when the form's headers are
 * numbered questions ("1. ...", "2. ...", "3. ..."), each header whose text
 * before the first '.' is all digits becomes "Col" followed by that number,
 * zero-padded to at least two digits. Other headers keep their text and the
 * column order never changes.
 *
 * Digits are the ASCII digits '0'..'9'.
 */
module Columns {

  predicate IsDigit(c: char) {
    '0' <= c <= '9'
  }

  /** The test str.isdigit() makes: non-empty and all digits. */
  predicate AllDigits(s: string) {
    |s| > 0 && forall i :: 0 <= i < |s| ==> IsDigit(s[i])
  }

  predicate StartsWith(s: string, prefix: string) {
    |prefix| <= |s| && s[..|prefix|] == prefix
  }

  /** The text before the first '.', that is s.split('.')[0]: the longest
      prefix of s without a '.'. */
  function BeforeDot(s: string): (r: string)
    ensures |r| <= |s| && r == s[..|r|]
    ensures forall i :: 0 <= i < |r| ==> r[i] != '.'
    ensures |r| < |s| ==> s[|r|] == '.'
  {
    if |s| == 0 || s[0] == '.' then "" else [s[0]] + BeforeDot(s[1..])
  }

  function DigitValue(c: char): nat
    requires IsDigit(c)
  {
    (c as int - '0' as int) as nat
  }

  function DigitChar(d: nat): (c: char)
    requires d < 10
    ensures IsDigit(c) && DigitValue(c) == d
  {
    ('0' as int + d) as char
  }

  /** The number a string of digits denotes, as int() reads it (leading
      zeros allowed). */
  function DecimalValue(s: string): nat
    requires forall i :: 0 <= i < |s| ==> IsDigit(s[i])
  {
    if |s| == 0 then 0 else 10 * DecimalValue(s[..|s| - 1]) + DigitValue(s[|s| - 1])
  }

  /** The decimal numeral of n, without leading zeros. */
  function Decimal(n: nat): (s: string)
    ensures |s| > 0 && (forall i :: 0 <= i < |s| ==> IsDigit(s[i]))
    ensures |s| > 1 ==> s[0] != '0'
  {
    if n < 10 then [DigitChar(n)] else Decimal(n / 10) + [DigitChar(n % 10)]
  }

  /** The format spec :02d: the numeral of n, left-padded with '0' to at
      least two characters and no further. */
  function Format02(n: nat): (s: string)
    ensures |s| >= 2 && (forall i :: 0 <= i < |s| ==> IsDigit(s[i]))
    ensures n < 10 <==> |s| == 2 && s[0] == '0'
    ensures |s| > 2 ==> s[0] != '0'
  {
    var d := Decimal(n);
    if |d| < 2 then ['0'] + d else d
  }

  /** Reading back a numeral gives the number it was written from. */
  lemma {:induction false} DecimalRoundTrip(n: nat)
    ensures DecimalValue(Decimal(n)) == n
  {
    if n >= 10 {
      var s := Decimal(n);
      assert s[..|s| - 1] == Decimal(n / 10);
      DecimalRoundTrip(n / 10);
    }
  }

  /** A leading zero does not change the value of a numeral. */
  lemma {:induction false} LeadingZero(s: string)
    requires forall i :: 0 <= i < |s| ==> IsDigit(s[i])
    ensures DecimalValue(['0'] + s) == DecimalValue(s)
    decreases |s|
  {
    if |s| > 0 {
      var t := ['0'] + s;
      assert t[..|t| - 1] == ['0'] + s[..|s| - 1];
      LeadingZero(s[..|s| - 1]);
    }
  }

  /** The padded numeral still reads back as n. */
  lemma Format02RoundTrip(n: nat)
    ensures DecimalValue(Format02(n)) == n
  {
    DecimalRoundTrip(n);
    if |Decimal(n)| < 2 {
      LeadingZero(Decimal(n));
    }
  }

  /** The new name of a header whose text before the first '.' is all digits. */
  function NumberedName(col: string): (r: string)
    requires AllDigits(BeforeDot(col))
    ensures |r| >= 5 && r[..3] == "Col" && AllDigits(r[3..])
    ensures DecimalValue(r[3..]) == DecimalValue(BeforeDot(col))
    ensures |r| == 5 || r[3] != '0'
  {
    var r := "Col" + Format02(DecimalValue(BeforeDot(col)));
    assert r[3..] == Format02(DecimalValue(BeforeDot(col)));
    Format02RoundTrip(DecimalValue(BeforeDot(col)));
    r
  }

  /** The header starts with one of the first three question numbers; its
      text before the first '.' is then that digit. */
  function StartsWithQuestion(col: string): (b: bool)
    ensures b ==> AllDigits(BeforeDot(col))
  {
    assert "1. " == ['1', '.', ' '] && "2. " == ['2', '.', ' '] && "3. " == ['3', '.', ' '];
    if StartsWith(col, "1. ") then NumberedPrefix(col, '1'); true
    else if StartsWith(col, "2. ") then NumberedPrefix(col, '2'); true
    else if StartsWith(col, "3. ") then NumberedPrefix(col, '3'); true
    else false
  }

  /** The renaming is switched on only when some header starts with one of
      the first three question numbers. */
  function NeedsRename(names: seq<string>): (b: bool)
    ensures b ==> exists i :: 0 <= i < |names| && AllDigits(BeforeDot(names[i]))
  {
    exists i :: 0 <= i < |names| && StartsWithQuestion(names[i])
  }

  /** The label a header gets: its numbered name when its text before the
      first '.' is all digits, itself otherwise. */
  function Relabel(col: string): (r: string)
    ensures AllDigits(BeforeDot(col)) ==>
      |r| >= 5 && r[..3] == "Col" && AllDigits(r[3..])
      && DecimalValue(r[3..]) == DecimalValue(BeforeDot(col))
      && (|r| == 5 || r[3] != '0')
    ensures !AllDigits(BeforeDot(col)) ==> r == col
  {
    if AllDigits(BeforeDot(col)) then NumberedName(col) else col
  }

  /** The headers after the renaming step, in their original order. */
  function RenameColumns(names: seq<string>): (r: seq<string>)
    ensures |r| == |names|
    ensures NeedsRename(names) ==> forall i :: 0 <= i < |names| ==> r[i] == Relabel(names[i])
    ensures !NeedsRename(names) ==> r == names
  {
    if NeedsRename(names) then seq(|names|, i requires 0 <= i < |names| => Relabel(names[i]))
    else names
  }

  /** A header that starts with a one-digit question number has that digit
      as its text before the first '.'. */
  lemma NumberedPrefix(col: string, d: char)
    requires IsDigit(d) && StartsWith(col, [d, '.', ' '])
    ensures BeforeDot(col) == [d]
  {
    assert col[0] == d && col[1..][0] == '.';
    assert BeforeDot(col[1..]) == "";
  }

  /** A renamed header never starts with a question number again. */
  lemma RelabelNotNumbered(col: string)
    ensures !StartsWithQuestion(Relabel(col))
  {
    assert "1. " == ['1', '.', ' '] && "2. " == ['2', '.', ' '] && "3. " == ['3', '.', ' '];
    forall d: char | d == '1' || d == '2' || d == '3'
      ensures StartsWith(col, [d, '.', ' ']) ==> AllDigits(BeforeDot(col))
    {
      if StartsWith(col, [d, '.', ' ']) {
        NumberedPrefix(col, d);
      }
    }
    if AllDigits(BeforeDot(col)) {
      assert Relabel(col)[0] == 'C';
    }
  }

  /** Renaming twice is renaming once: after the first pass no header starts
      with a question number, so the second pass does not fire. */
  lemma RenameIdempotent(names: seq<string>)
    ensures RenameColumns(RenameColumns(names)) == RenameColumns(names)
  {
    var r := RenameColumns(names);
    if NeedsRename(names) {
      forall i | 0 <= i < |r|
        ensures !StartsWithQuestion(r[i])
      {
        RelabelNotNumbered(names[i]);
      }
    }
  }

  /** One header starting with "1. " is enough to switch the renaming on. */
  lemma NumberedHeaderSwitches(names: seq<string>, i: nat)
    requires i < |names| && StartsWith(names[i], "1. ")
    ensures NeedsRename(names)
  {
    assert StartsWithQuestion(names[i]);
  }

  /** The switch is exact: the headers change if and only if one of them
      starts with a first-three question number. */
  lemma RenameChangesIffNeeded(names: seq<string>)
    ensures RenameColumns(names) != names <==> NeedsRename(names)
  {
    if NeedsRename(names) {
      var i :| 0 <= i < |names| && StartsWithQuestion(names[i]);
      RelabelNotNumbered(names[i]);
      assert RenameColumns(names)[i] != names[i];
    }
  }

  /** "1. x" becomes "Col01". */
  lemma RelabelOneDigit(col: string)
    requires col == "1. x"
    ensures Relabel(col) == "Col01"
  {
    assert col[1..][0] == '.';
    assert BeforeDot(col[1..]) == "";
    assert BeforeDot(col) == "1";
    assert DecimalValue("1") == 1;
    assert Format02(1) == "01";
  }

  /** "12. y" becomes "Col12". */
  lemma RelabelTwoDigits(col: string)
    requires col == "12. y"
    ensures Relabel(col) == "Col12"
  {
    assert col[2..][0] == '.';
    assert BeforeDot(col[2..]) == "";
    assert BeforeDot(col[1..]) == "2";
    assert BeforeDot(col) == "12";
    assert DecimalValue("12") == 12;
    assert Decimal(12) == Decimal(1) + "2";
    assert Format02(12) == "12";
  }

  /** The worked examples: with a numbered header present, "1. x" becomes
      "Col01", "12. y" becomes "Col12" and "Idade" is kept. */
  lemma RenameExamples(a: string, b: string, c: string)
    requires a == "1. x" && b == "12. y" && c == "Idade"
    ensures RenameColumns([a, b, c]) == ["Col01", "Col12", "Idade"]
  {
    var names := [a, b, c];
    assert StartsWith(names[0], "1. ");
    NumberedHeaderSwitches(names, 0);
    RenameEach(names);
    RelabelOneDigit(a);
    RelabelTwoDigits(b);
    RelabelKeepsWord(c);
  }

  /** Once switched on, the renaming relabels three headers one by one. */
  lemma RenameEach(names: seq<string>)
    requires |names| == 3 && NeedsRename(names)
    ensures RenameColumns(names) == [Relabel(names[0]), Relabel(names[1]), Relabel(names[2])]
  {
    var r := RenameColumns(names);
    var x, y, z := Relabel(names[0]), Relabel(names[1]), Relabel(names[2]);
    assert |r| == 3 && r[0] == x && r[1] == y && r[2] == z;
    assert r == [x, y, z];
  }

  /** "Idade" has no number before a '.', so it is kept. */
  lemma RelabelKeepsWord(col: string)
    requires col == "Idade"
    ensures Relabel(col) == col
  {
    assert !AllDigits(BeforeDot("Idade"));
  }
}
