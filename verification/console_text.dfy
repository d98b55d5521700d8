/** Two pure helpers of the client: the test whether a name is one of the
    user's editable files (client/app/js/client.js:354-361) and the row label
    printed before an echoed command (client/app/js/client.js:478-486). */
module ConsoleText {
  import opened Common
  import opened Paths
  import opened Classifier

  // ---------------------------------------------------------------------
  // fileNameExists

  /** `fileNameExists`, with the editor's file list given as `names`: a name
      starting with a dot, or whose first seven characters are "octave-",
      never counts; any other name counts when it is in the list. An empty
      name has no first character, so only the list decides. */
  function FileNameExists(filename: string, names: seq<string>): (r: bool)
    ensures r ==> filename in names
    ensures |filename| >= 1 && filename[0] == '.' ==> !r
    ensures StartsWith(filename, "octave-") ==> !r
    ensures filename in names && (filename == "" || filename[0] != '.') && !StartsWith(filename, "octave-") ==> r
  {
    if |filename| >= 1 && filename[0] == '.' then false
    else if (if |filename| >= 7 then filename[..7] else filename) == "octave-" then false
    else filename in names
  }

  /** Every name the back end keeps out of listings as reserved is also one
      the client never treats as an existing file. */
  lemma ReservedNeverExists(name: string, names: seq<string>)
    requires IsReservedName(name)
    ensures !FileNameExists(name, names)
  {
    if !(|name| >= 1 && name[0] == '.') {
      assert name[..7] == "octave-";
    }
  }

  /** The client's test is broader than the back end's: "octave-" alone and
      "octave-a.b" are listed by the back end, yet the client says they do not exist. */
  lemma ClientHidesListedNames(names: seq<string>)
    requires "octave-" in names && "octave-a.b" in names
    ensures !IsReservedName("octave-") && !FileNameExists("octave-", names)
    ensures !IsReservedName("octave-a.b") && !FileNameExists("octave-a.b", names)
  {
    ReservedExamples();
    assert "octave-a.b"[..7] == "octave-";
  }

  // ---------------------------------------------------------------------
  // The row label of `writeCommand`

  predicate IsDigit(c: char) {
    '0' <= c <= '9'
  }

  function DigitChar(d: nat): (c: char)
    requires d < 10
    ensures IsDigit(c) && DigitValue(c) == d
  {
    "0123456789"[d]
  }

  function DigitValue(c: char): (d: nat)
    requires IsDigit(c)
    ensures d < 10
  {
    (c as int) - ('0' as int)
  }

  lemma DigitRoundTrip(c: char)
    requires IsDigit(c)
    ensures DigitChar(DigitValue(c)) == c
  {
    var d := DigitValue(c);
    assert "0123456789"[d] == '0' + d as char;
  }

  /** The decimal digits of a non-negative integer, with no leading zero:
      JavaScript's rendering of it below 10^21 (from there on it uses
      exponent notation, which this model leaves out). */
  function DecimalString(n: nat): (s: string)
    ensures |s| >= 1 && forall i :: 0 <= i < |s| ==> IsDigit(s[i])
    ensures s[0] == '0' ==> n == 0
  {
    if n < 10 then [DigitChar(n)] else DecimalString(n / 10) + [DigitChar(n % 10)]
  }

  /** The number a string of decimal digits denotes. */
  function DecimalValue(s: string): nat
    requires forall i :: 0 <= i < |s| ==> IsDigit(s[i])
  {
    if s == [] then 0
    else DecimalValue(s[..|s| - 1]) * 10 + DigitValue(s[|s| - 1])
  }

  lemma {:induction false} DecimalRoundTrip(n: nat)
    ensures DecimalValue(DecimalString(n)) == n
  {
    if n >= 10 {
      var s := DecimalString(n);
      assert s[..|s| - 1] == DecimalString(n / 10);
      DecimalRoundTrip(n / 10);
    }
  }

  /** The label before an echoed command: "octave:N> " for a line number
      N >= 0, "> " for -1 (a continuation line), and nothing otherwise. */
  function RowPrefix(lineNumber: int): (r: string)
    ensures |r| > 0 <==> lineNumber >= -1
    ensures |r| > 0 ==> |r| >= 2 && r[|r| - 2..] == "> "
  {
    if lineNumber >= 0 then "octave:" + DecimalString(lineNumber) + "> "
    else if lineNumber == -1 then "> "
    else ""
  }

  /** `writeCommand`: the pieces appended to the console, the row label when
      it is not empty, then the command and a line break. */
  function WriteCommand(lineNumber: int, cmd: string): (pieces: seq<string>)
    ensures 2 <= |pieces| <= 3 && pieces[|pieces| - 2..] == [cmd, "\n"]
    ensures |pieces| == 3 <==> lineNumber >= -1
    ensures |pieces| == 3 ==> pieces[0] == RowPrefix(lineNumber) && |pieces[0]| > 0
  {
    var rowString := RowPrefix(lineNumber);
    (if |rowString| > 0 then [rowString] else []) + [cmd, "\n"]
  }

  /** Reads a line number back from a row label; None for anything that is not one. */
  function ParseRowPrefix(r: string): Option<int> {
    if r == "> " then Some(-1)
    else if |r| >= 10 && r[..7] == "octave:" && r[|r| - 2..] == "> " &&
            (forall i :: 7 <= i < |r| - 2 ==> IsDigit(r[i])) && (r[7] == '0' ==> |r| == 10)
    then Some(DecimalValue(r[7..|r| - 2]))
    else None
  }

  /** Every label that is written names its line number, so different line numbers get different labels. */
  lemma RowPrefixRoundTrip(lineNumber: int)
    requires lineNumber >= -1
    ensures ParseRowPrefix(RowPrefix(lineNumber)) == Some(lineNumber)
  {
    if lineNumber >= 0 {
      var d := DecimalString(lineNumber);
      var r := RowPrefix(lineNumber);
      assert r[..7] == "octave:";
      assert r[7..|r| - 2] == d;
      forall i | 7 <= i < |r| - 2 ensures IsDigit(r[i]) {
        assert r[i] == d[i - 7];
      }
      DecimalRoundTrip(lineNumber);
    }
  }

  /** Parsing accepts only what `RowPrefix` writes. */
  lemma ParseRowPrefixSound(r: string)
    requires ParseRowPrefix(r).Some?
    ensures RowPrefix(ParseRowPrefix(r).value) == r
  {
    if r != "> " {
      var d := r[7..|r| - 2];
      DecimalCanonical(d);
      assert r == "octave:" + d + "> ";
    }
  }

  /** A digit string with no leading zero is the rendering of its value. */
  lemma {:induction false} DecimalCanonical(d: string)
    requires |d| >= 1 && (forall i :: 0 <= i < |d| ==> IsDigit(d[i])) && (d[0] == '0' ==> |d| == 1)
    ensures DecimalString(DecimalValue(d)) == d
  {
    if |d| > 1 {
      var p := d[..|d| - 1];
      DecimalCanonical(p);
      DecimalLowerBound(p);
      var n := DecimalValue(d);
      assert n / 10 == DecimalValue(p) && n % 10 == DigitValue(d[|d| - 1]);
      DigitRoundTrip(d[|d| - 1]);
      assert d == p + [d[|d| - 1]];
    } else {
      assert d[..0] == [];
      DigitRoundTrip(d[0]);
    }
  }

  /** A digit string that does not start with zero denotes a positive number. */
  lemma {:induction false} DecimalLowerBound(d: string)
    requires |d| >= 1 && (forall i :: 0 <= i < |d| ==> IsDigit(d[i])) && d[0] != '0'
    ensures DecimalValue(d) >= 1
  {
    if |d| > 1 {
      DecimalLowerBound(d[..|d| - 1]);
    }
  }
}
