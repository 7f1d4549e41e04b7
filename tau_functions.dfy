/**
 * Helpers of the TAU co-simulation coupling: locating the interface file of a step among a
 * list of file paths, and counting the data lines of an interface file.
 */
module TauFunctions {
  import opened Wrappers

  // ---------------------------------------------------------------- decimal text of an integer

  /** The decimal digit character of 0 <= d < 10. */
  function Digit(d: int): (c: char)
    requires 0 <= d < 10
    ensures '0' <= c <= '9'
  {
    (48 + d) as char
  }

  predicate IsDigit(c: char) { '0' <= c <= '9' }

  /** Decimal text of a natural number, without leading zeros, as Python's str(). */
  function NatToText(n: nat): (s: string)
    ensures |s| > 0 && forall i :: 0 <= i < |s| ==> IsDigit(s[i])
    decreases n
  {
    if n < 10 then [Digit(n)] else NatToText(n / 10) + [Digit(n % 10)]
  }

  /** Python's str() of an integer: a minus sign before the digits of a negative value. */
  function IntToText(n: int): (s: string)
    ensures |s| > 0 && (s[0] == '-' <==> n < 0)
  {
    if n < 0 then "-" + NatToText(-n) else NatToText(n)
  }

  /** The value of a string of decimal digits. */
  function TextValue(s: string): (n: int)
    requires forall i :: 0 <= i < |s| ==> IsDigit(s[i])
  {
    if |s| == 0 then 0 else 10 * TextValue(s[..|s| - 1]) + (s[|s| - 1] as int - 48)
  }

  /**
   * Reading back the decimal text of n gives n, so distinct steps give distinct texts. The
   * file-name search is a prefix test, though, so the text of one step can still be a prefix
   * of another step's file name (2 of 21).
   */
  lemma {:induction false} NatToTextRoundTrip(n: nat)
    ensures TextValue(NatToText(n)) == n
    decreases n
  {
    var s := NatToText(n);
    if n >= 10 {
      NatToTextRoundTrip(n / 10);
      assert s[..|s| - 1] == NatToText(n / 10);
    }
  }

  // ---------------------------------------------------------------- findInterfaceFileName

  /** The prefix of the interface file of step `step`, which is numbered from 1. */
  function InterfacePrefix(workingPath: string, step: int): (prefix: string)
  {
    workingPath + "/Outputs/airfoilSol.MEMBRANE_i=" + IntToText(step + 1)
  }

  /**
   * findInterfaceFileName: the first path in list order that starts with the step's prefix;
   * None when the loop falls through.
   */
  method FindInterfaceFileName(paths: seq<string>, workingPath: string, step: int) returns (r: Option<string>)
    ensures r.Some? ==> (exists k :: 0 <= k < |paths| && paths[k] == r.value &&
                          InterfacePrefix(workingPath, step) <= paths[k] &&
                          forall j :: 0 <= j < k ==> !(InterfacePrefix(workingPath, step) <= paths[j]))
    ensures r.None? <==> forall k :: 0 <= k < |paths| ==> !(InterfacePrefix(workingPath, step) <= paths[k])
  {
    var stepOut := step + 1;
    var prefix := workingPath + "/Outputs/airfoilSol.MEMBRANE_i=" + IntToText(stepOut);
    for k := 0 to |paths|
      invariant forall j :: 0 <= j < k ==> !(prefix <= paths[j])
    {
      if prefix <= paths[k] {
        return Some(paths[k]);
      }
    }
    return None;
  }

  // ---------------------------------------------------------------- findInterfaceFileNumberOfLines

  /** Python's `pattern in line` for strings. */
  predicate Contains(line: string, pattern: string) {
    exists i :: 0 <= i <= |line| - |pattern| && pattern <= line[i..]
  }

  /** A data line: it contains an exponent marker "E+" or "E-". */
  predicate IsDataLine(line: string) {
    Contains(line, "E+") || Contains(line, "E-")
  }

  /** The number of data lines. */
  function DataLineCount(lines: seq<string>): (count: nat) {
    if |lines| == 0 then 0
    else DataLineCount(lines[..|lines| - 1]) + (if IsDataLine(lines[|lines| - 1]) then 1 else 0)
  }

  /** Each line is counted at most once, so the count never exceeds the number of lines. */
  lemma {:induction false} DataLineCountBounded(lines: seq<string>)
    ensures DataLineCount(lines) <= |lines|
    ensures DataLineCount(lines) == |lines| <==> forall i :: 0 <= i < |lines| ==> IsDataLine(lines[i])
  {
    if |lines| > 0 {
      var init := lines[..|lines| - 1];
      DataLineCountBounded(init);
      assert forall i :: 0 <= i < |init| ==> init[i] == lines[i];
    }
  }

  /** Counting lines one after the other: the count of a concatenation is the sum of the counts. */
  lemma {:induction false} DataLineCountAppend(a: seq<string>, b: seq<string>)
    ensures DataLineCount(a + b) == DataLineCount(a) + DataLineCount(b)
    decreases |b|
  {
    if |b| > 0 {
      DataLineCountAppend(a, b[..|b| - 1]);
      assert (a + b)[..|a + b| - 1] == a + b[..|b| - 1];
    } else {
      assert a + b == a;
    }
  }

  /** Whether `pattern` occurs in `line`, by a scan over the start positions. */
  method ContainsText(line: string, pattern: string) returns (found: bool)
    ensures found == Contains(line, pattern)
  {
    var i := 0;
    while i <= |line| - |pattern|
      invariant 0 <= i && (|pattern| <= |line| ==> i <= |line| - |pattern| + 1)
      invariant forall j :: 0 <= j < i && j <= |line| ==> !(pattern <= line[j..])
    {
      if pattern <= line[i..] {
        return true;
      }
      i := i + 1;
    }
    return false;
  }

  /** findInterfaceFileNumberOfLines over the file's lines: `it` counts the lines with "E+" or "E-". */
  method FindInterfaceFileNumberOfLines(lines: seq<string>) returns (it: nat)
    ensures it == DataLineCount(lines)
    ensures it <= |lines|
  {
    it := 0;
    for k := 0 to |lines|
      invariant it == DataLineCount(lines[..k])
    {
      assert lines[..k + 1][..k] == lines[..k];
      var plus := ContainsText(lines[k], "E+");
      var minus := ContainsText(lines[k], "E-");
      if plus || minus {
        it := it + 1;
      }
    }
    assert lines[..|lines|] == lines;
    DataLineCountBounded(lines);
  }
}
