/** The two string operations the ledger relies on: Python's `str.upper()`,
    applied to every ticker symbol before it is stored or looked up, and
    `str.lower()`, applied to a username at registration. Only the ASCII
    letters are mapped. */
module Text {

  function UpperChar(c: char): char
  {
    if 'a' <= c <= 'z' then (c as int - 32) as char else c
  }

  function LowerChar(c: char): char
  {
    if 'A' <= c <= 'Z' then (c as int + 32) as char else c
  }

  /** No lower-case ASCII letter occurs in `s`. */
  predicate IsUpper(s: string)
  {
    forall i :: 0 <= i < |s| ==> !('a' <= s[i] <= 'z')
  }

  /** No upper-case ASCII letter occurs in `s`. */
  predicate IsLower(s: string)
  {
    forall i :: 0 <= i < |s| ==> !('A' <= s[i] <= 'Z')
  }

  /** `s.upper()`: same length, every letter upper-case, and a string that is
      already upper-case is its own image; `UpperEach` gives each character. */
  function Upper(s: string): (r: string)
    ensures |r| == |s|
    ensures IsUpper(r)
    ensures r == s <==> IsUpper(s)
  {
    if s == [] then []
    else
      var rest := Upper(s[1..]);
      assert IsUpper(s) ==> IsUpper(s[1..]) && s == [s[0]] + s[1..];
      [UpperChar(s[0])] + rest
  }

  /** `s.lower()`: same length, every letter lower-case, and a string that is
      already lower-case is its own image; `LowerEach` gives each character. */
  function Lower(s: string): (r: string)
    ensures |r| == |s|
    ensures IsLower(r)
    ensures r == s <==> IsLower(s)
  {
    if s == [] then []
    else
      var rest := Lower(s[1..]);
      assert IsLower(s) ==> IsLower(s[1..]) && s == [s[0]] + s[1..];
      [LowerChar(s[0])] + rest
  }

  /** `s.upper()` maps each character of `s` by `UpperChar`. */
  lemma {:induction false} UpperEach(s: string)
    ensures forall i :: 0 <= i < |s| ==> Upper(s)[i] == UpperChar(s[i])
  {
    if s != [] {
      UpperEach(s[1..]);
      assert forall i :: 1 <= i < |s| ==> Upper(s)[i] == Upper(s[1..])[i - 1];
    }
  }

  /** `s.lower()` maps each character of `s` by `LowerChar`. */
  lemma {:induction false} LowerEach(s: string)
    ensures forall i :: 0 <= i < |s| ==> Lower(s)[i] == LowerChar(s[i])
  {
    if s != [] {
      LowerEach(s[1..]);
      assert forall i :: 1 <= i < |s| ==> Lower(s)[i] == Lower(s[1..])[i - 1];
    }
  }

  /** Symbols that differ only in ASCII letter case are stored under the
      same upper-case symbol. */
  lemma UpperIgnoresCase(s: string, t: string)
    requires |s| == |t| && forall i :: 0 <= i < |s| ==> UpperChar(s[i]) == UpperChar(t[i])
    ensures Upper(s) == Upper(t)
  {
    UpperEach(s);
    UpperEach(t);
  }
}
