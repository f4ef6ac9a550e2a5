/**
 * The part of JavaScript's String.prototype.trim the entry form relies on:
 * the text typed by the user is stripped of leading and trailing white
 * space before it is validated and stored.
 */
module JsString {

  /** ECMAScript WhiteSpace and LineTerminator code points, the set trim strips. */
  predicate IsWhitespace(c: char)
  {
    var n := c as int;
    n == 0x09 || n == 0x0A || n == 0x0B || n == 0x0C || n == 0x0D || n == 0x20
    || n == 0xA0 || n == 0x1680 || (0x2000 <= n <= 0x200A)
    || n == 0x2028 || n == 0x2029 || n == 0x202F || n == 0x205F
    || n == 0x3000 || n == 0xFEFF
  }

  /** Every character of s is white space. */
  predicate AllWhitespace(s: string)
  {
    forall k :: 0 <= k < |s| ==> IsWhitespace(s[k])
  }

  /** s with its leading white space removed: a suffix of s that starts with a non-space. */
  function TrimStart(s: string): (r: string)
    ensures |r| <= |s| && r == s[|s| - |r|..]
    ensures AllWhitespace(s[..|s| - |r|])
    ensures r == [] || !IsWhitespace(r[0])
  {
    if |s| > 0 && IsWhitespace(s[0]) then
      var r := TrimStart(s[1..]);
      assert s[..|s| - |r|] == [s[0]] + s[1..][..|s| - 1 - |r|];
      r
    else
      s
  }

  /** s with its trailing white space removed: a prefix of s that ends with a non-space. */
  function TrimEnd(s: string): (r: string)
    ensures |r| <= |s| && r == s[..|r|]
    ensures AllWhitespace(s[|r|..])
    ensures r == [] || !IsWhitespace(r[|r| - 1])
  {
    if |s| > 0 && IsWhitespace(s[|s| - 1]) then
      var r := TrimEnd(s[..|s| - 1]);
      assert s[|r|..] == s[..|s| - 1][|r|..] + [s[|s| - 1]];
      r
    else
      s
  }

  /** r is the slice of s starting at a, and everything of s before and after it is white space. */
  predicate CutFrom(s: string, a: nat, r: string)
  {
    && a + |r| <= |s|
    && r == s[a..a + |r|]
    && AllWhitespace(s[..a])
    && AllWhitespace(s[a + |r|..])
  }

  /**
   * String.prototype.trim. The result is s with the run of white space at
   * its start and the run at its end cut off: it is empty exactly when s is
   * all white space, and otherwise neither starts nor ends with white space.
   */
  function Trim(s: string): (r: string)
    ensures CutFrom(s, |s| - |TrimStart(s)|, r)
    ensures r == [] <==> AllWhitespace(s)
    ensures r != [] ==> !IsWhitespace(r[0]) && !IsWhitespace(r[|r| - 1])
  {
    var u := TrimStart(s);
    var r := TrimEnd(u);
    CutTwice(s, u, r);
    r
  }

  /**
   * Cutting a white-space prefix off s, giving u, and then a white-space
   * suffix off u, giving r, leaves a slice of s with white space around it;
   * when both cuts stop at a non-space, r is empty only if s is all white space.
   */
  lemma CutTwice(s: string, u: string, r: string)
    requires |u| <= |s| && u == s[|s| - |u|..] && AllWhitespace(s[..|s| - |u|])
    requires u == [] || !IsWhitespace(u[0])
    requires |r| <= |u| && r == u[..|r|] && AllWhitespace(u[|r|..])
    requires r == [] || !IsWhitespace(r[|r| - 1])
    ensures CutFrom(s, |s| - |u|, r)
    ensures r == [] <==> AllWhitespace(s)
    ensures r != [] ==> !IsWhitespace(r[0]) && !IsWhitespace(r[|r| - 1])
  {
    var a := |s| - |u|;
    assert u[|r|..] == s[a + |r|..];
    if u == [] {
      assert s[..a] == s;
    } else {
      assert u[0] == s[a];
      assert r[0] == u[0];
    }
  }

  /** A string that has neither leading nor trailing white space is its own trim. */
  lemma TrimOfTrimmed(s: string)
    requires s == [] || (!IsWhitespace(s[0]) && !IsWhitespace(s[|s| - 1]))
    ensures Trim(s) == s
  {
  }

  /** Trimming twice is trimming once. */
  lemma {:induction false} TrimIdempotent(s: string)
    ensures Trim(Trim(s)) == Trim(s)
  {
    TrimOfTrimmed(Trim(s));
  }
}
