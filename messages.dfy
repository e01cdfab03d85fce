/** The string operations behind the drift report: `parts.join("\n")`,
    the decimal rendering of a count, and `split("\n")`, which recovers the
    report's lines. */
module Messages {

  /** The decimal digit for `d`. */
  function Digit(d: nat): (c: char)
    requires d < 10
    ensures '0' <= c <= '9'
    ensures c as int - '0' as int == d
  {
    "0123456789"[d]
  }

  /** `${n}` for a count. */
  function NatToString(n: nat): (s: string)
    ensures s != []
    ensures forall i :: 0 <= i < |s| ==> '0' <= s[i] <= '9'
    ensures s[0] == '0' <==> n == 0
    ensures |s| > 1 ==> s[0] != '0'
  {
    if n < 10 then [Digit(n)] else NatToString(n / 10) + [Digit(n % 10)]
  }

  /** A whole number as JavaScript prints it: a `-` before a negative
      number's digits. */
  function IntToString(n: int): string {
    if n < 0 then "-" + NatToString(-n) else NatToString(n)
  }

  /** The value of a string of decimal digits. */
  function DecimalValue(s: string): nat
    requires forall i :: 0 <= i < |s| ==> '0' <= s[i] <= '9'
  {
    if s == [] then 0 else 10 * DecimalValue(s[..|s| - 1]) + (s[|s| - 1] as int - '0' as int)
  }

  /** The rendered count reads back as the count. */
  lemma {:induction false} NatToStringValue(n: nat)
    ensures DecimalValue(NatToString(n)) == n
  {
    if n >= 10 {
      NatToStringValue(n / 10);
      var s := NatToString(n);
      assert s[..|s| - 1] == NatToString(n / 10);
    }
  }

  /** `parts.join("\n")`. */
  function JoinLines(parts: seq<string>): string {
    if |parts| == 0 then ""
    else if |parts| == 1 then parts[0]
    else parts[0] + "\n" + JoinLines(parts[1..])
  }

  /** `s.split("\n")`: the pieces between newlines, always at least one. */
  function SplitLines(s: string): (r: seq<string>)
    ensures |r| >= 1
  {
    if s == [] then [""]
    else
      var rest := SplitLines(s[1..]);
      if s[0] == '\n' then [""] + rest else [[s[0]] + rest[0]] + rest[1..]
  }

  /** A line with no newline in it is split off whole, up to the first
      newline. */
  lemma {:induction false} SplitLinesPrefix(line: string, rest: string)
    requires '\n' !in line
    ensures SplitLines(line) == [line]
    ensures SplitLines(line + "\n" + rest) == [line] + SplitLines(rest)
  {
    if line != [] {
      SplitLinesPrefix(line[1..], rest);
      assert (line + "\n" + rest)[1..] == line[1..] + "\n" + rest;
      assert [line[0]] + line[1..] == line;
    } else {
      assert line + "\n" + rest == "\n" + rest;
      assert ("\n" + rest)[1..] == rest;
    }
  }

  /** Splitting undoes joining when no part holds a newline. */
  lemma {:induction false} SplitJoinLines(parts: seq<string>)
    requires |parts| >= 1
    requires forall i :: 0 <= i < |parts| ==> '\n' !in parts[i]
    ensures SplitLines(JoinLines(parts)) == parts
  {
    if |parts| == 1 {
      SplitLinesPrefix(parts[0], "");
    } else {
      SplitJoinLines(parts[1..]);
      SplitLinesPrefix(parts[0], JoinLines(parts[1..]));
      assert [parts[0]] + parts[1..] == parts;
    }
  }
}
