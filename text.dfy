/**
 * The string comparisons the core relies on: ordinal case folding (ASCII
 * letters) and the trailing-space rule of SQL string equality.
 */
module Text {

  function LowerChar(c: char): (d: char)
    ensures d == ' ' <==> c == ' '
  {
    if 'A' <= c <= 'Z' then (c as int + 32) as char else c
  }

  /** `s.ToLower()` on ASCII letters. */
  function ToLower(s: string): (r: string)
    ensures |r| == |s|
  {
    seq(|s|, i requires 0 <= i < |s| => LowerChar(s[i]))
  }

  /** `s` without its trailing spaces: the longest prefix that does not end
      in a space, and only spaces after it. */
  function TrimEnd(s: string): (r: string)
    ensures |r| <= |s| && r == s[..|r|]
    ensures |r| == 0 || r[|r| - 1] != ' '
    ensures forall i :: |r| <= i < |s| ==> s[i] == ' '
  {
    if |s| > 0 && s[|s| - 1] == ' ' then TrimEnd(s[..|s| - 1]) else s
  }

  /** Trailing spaces never count: appending one leaves the trimmed text as
      it was. */
  lemma {:induction false} TrimEndIgnoresSpace(s: string)
    ensures TrimEnd(s + " ") == TrimEnd(s)
  {
    assert (s + " ")[..|s|] == s;
  }
}
