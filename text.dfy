/**
 * The string operations the task list relies on: ECMAScript `trim()`,
 * `toLowerCase()` (restricted to ASCII letters) and `includes()`.
 * Strings are sequences of Unicode scalar values.
 */
module Text {

  /** ECMAScript WhiteSpace or LineTerminator: the characters `trim()` removes. */
  predicate IsWhiteSpace(c: char) {
    var n := c as int;
    || n == 0x09 || n == 0x0A || n == 0x0B || n == 0x0C || n == 0x0D  // TAB LF VT FF CR
    || n == 0x20 || n == 0xA0 || n == 0x1680                          // space, NBSP, Ogham
    || (0x2000 <= n <= 0x200A)                                        // en quad .. hair space
    || n == 0x2028 || n == 0x2029                                     // LS, PS
    || n == 0x202F || n == 0x205F || n == 0x3000                      // NNBSP, MMSP, ideographic
    || n == 0xFEFF                                                    // ZWNBSP (BOM)
  }

  /** Every character of `s` is white space. */
  predicate AllWhiteSpace(s: string) {
    forall i :: 0 <= i < |s| ==> IsWhiteSpace(s[i])
  }

  /** `s` without its leading white space. */
  function TrimStart(s: string): (r: string)
    ensures |r| <= |s| && r == s[|s| - |r|..]
    ensures AllWhiteSpace(s[..|s| - |r|])
    ensures r != [] ==> !IsWhiteSpace(r[0])
  {
    if s != [] && IsWhiteSpace(s[0]) then
      var r := TrimStart(s[1..]);
      assert s[1..][..|s| - 1 - |r|] == s[1..|s| - |r|];
      assert forall i :: 0 <= i < |s| - |r| ==> IsWhiteSpace(s[i]) by {
        forall i | 0 <= i < |s| - |r| ensures IsWhiteSpace(s[i]) {
          if 0 < i {
            assert s[i] == s[1..][..|s| - 1 - |r|][i - 1];
          }
        }
      }
      r
    else s
  }

  /** `s` without its trailing white space. */
  function TrimEnd(s: string): (r: string)
    ensures |r| <= |s| && r == s[..|r|]
    ensures AllWhiteSpace(s[|r|..])
    ensures r != [] ==> !IsWhiteSpace(r[|r| - 1])
  {
    if s != [] && IsWhiteSpace(s[|s| - 1]) then
      var r := TrimEnd(s[..|s| - 1]);
      assert s[..|s| - 1][|r|..] == s[|r|..|s| - 1];
      assert forall i :: |r| <= i < |s| ==> IsWhiteSpace(s[i]) by {
        forall i | |r| <= i < |s| ensures IsWhiteSpace(s[i]) {
          if i < |s| - 1 {
            assert s[i] == s[..|s| - 1][|r|..][i - |r|];
          }
        }
      }
      r
    else s
  }

  /** ECMAScript `String.prototype.trim`: both ends stripped of white space. */
  function Trim(s: string): (r: string)
    ensures |r| <= |s|
    ensures r != [] ==> !IsWhiteSpace(r[0]) && !IsWhiteSpace(r[|r| - 1])
  {
    var t := TrimStart(s);
    var r := TrimEnd(t);
    assert r != [] ==> r[0] == t[0];
    r
  }

  /**
   * `Trim(s)` is the infix of `s` left between a white-space prefix and a
   * white-space suffix, and it neither starts nor ends with white space.
   */
  lemma TrimIsInfix(s: string)
    ensures exists lo, hi :: 0 <= lo <= hi <= |s| && Trim(s) == s[lo..hi]
                              && AllWhiteSpace(s[..lo]) && AllWhiteSpace(s[hi..])
    ensures Trim(s) != [] ==> !IsWhiteSpace(Trim(s)[0]) && !IsWhiteSpace(Trim(s)[|Trim(s)| - 1])
  {
    var t := TrimStart(s);
    var r := TrimEnd(t);
    var lo := |s| - |t|;
    var hi := lo + |r|;
    assert r == s[lo..hi];
    assert s[hi..] == t[|r|..];
  }

  /** A string is blank when `trim()` leaves nothing, i.e. it is falsy after trimming. */
  predicate IsBlank(s: string) {
    Trim(s) == []
  }

  /** Blank strings are exactly the all-white-space strings (the empty string included). */
  lemma {:induction false} BlankIffAllWhiteSpace(s: string)
    ensures IsBlank(s) <==> AllWhiteSpace(s)
  {
    var t := TrimStart(s);
    if t == [] {
      assert s[..|s|] == s;
    } else {
      assert !IsWhiteSpace(s[|s| - |t|]);
    }
  }

  /** `toLowerCase()` on one character; only the ASCII letters A-Z are mapped. */
  function LowerChar(c: char): char {
    if 'A' <= c <= 'Z' then (c as int + 32) as char else c
  }

  /** `toLowerCase()` on a string, character by character. */
  function Lower(s: string): (r: string)
    ensures |r| == |s|
    ensures forall i :: 0 <= i < |s| ==> r[i] == LowerChar(s[i])
  {
    if s == [] then [] else [LowerChar(s[0])] + Lower(s[1..])
  }

  /** Lower-casing a second time changes nothing. */
  lemma LowerIdempotent(s: string)
    ensures Lower(Lower(s)) == Lower(s)
  {
  }

  /** Lower-casing a slice gives the same slice of the lower-cased string. */
  lemma LowerSlice(s: string, lo: int, hi: int)
    requires 0 <= lo <= hi <= |s|
    ensures Lower(s)[lo..hi] == Lower(s[lo..hi])
  {
    var a, b := Lower(s)[lo..hi], Lower(s[lo..hi]);
    forall i | 0 <= i < hi - lo
      ensures a[i] == b[i]
    {
      assert s[lo..hi][i] == s[lo + i];
    }
  }

  /** `pat` occurs in `s` starting at index `i`. */
  predicate OccursAt(s: string, pat: string, i: int) {
    0 <= i && i + |pat| <= |s| && s[i..i + |pat|] == pat
  }

  /** `pat` occurs somewhere in `s`. */
  ghost predicate Occurs(s: string, pat: string) {
    exists i :: OccursAt(s, pat, i)
  }

  /** `String.prototype.includes`: a scan that tries every start position in turn. */
  predicate Includes(s: string, pat: string)
    ensures Includes(s, pat) ==> |pat| <= |s|
    decreases |s|
  {
    pat <= s || (s != [] && Includes(s[1..], pat))
  }

  /** An occurrence in `s[1..]` is an occurrence in `s` one index later, and back. */
  lemma OccursAtShift(s: string, pat: string, i: int)
    requires s != [] && 0 <= i
    ensures OccursAt(s[1..], pat, i) <==> OccursAt(s, pat, i + 1)
  {
    if i + |pat| <= |s| - 1 {
      assert s[1..][i..i + |pat|] == s[i + 1..i + 1 + |pat|];
    }
  }

  /** `Includes` holds exactly when `pat` occurs at some index of `s`. */
  lemma {:induction false} IncludesIffOccurs(s: string, pat: string)
    ensures Includes(s, pat) <==> Occurs(s, pat)
  {
    if pat <= s {
      assert OccursAt(s, pat, 0);
    } else if s == [] {
    } else {
      IncludesIffOccurs(s[1..], pat);
      if Includes(s[1..], pat) {
        var i :| OccursAt(s[1..], pat, i);
        OccursAtShift(s, pat, i);
      }
      if Occurs(s, pat) {
        var i :| OccursAt(s, pat, i);
        assert i != 0;
        OccursAtShift(s, pat, i - 1);
      }
    }
  }

  /** The empty string is included in every string. */
  lemma IncludesEmpty(s: string)
    ensures Includes(s, "")
  {
  }

  /** An occurrence survives lower-casing both sides. */
  lemma IncludesLower(s: string, pat: string)
    requires Includes(s, pat)
    ensures Includes(Lower(s), Lower(pat))
  {
    IncludesIffOccurs(s, pat);
    var i :| OccursAt(s, pat, i);
    LowerSlice(s, i, i + |pat|);
    assert OccursAt(Lower(s), Lower(pat), i);
    IncludesIffOccurs(Lower(s), Lower(pat));
  }
}
