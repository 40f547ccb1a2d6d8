/**
 * The part of ECMAScript's `String.prototype.trim` that the todo board
 * relies on: removing leading and trailing white space, and the test
 * `!s.trim()` that rejects a blank draft.
 */
module Text {

  /**
   * ECMAScript WhiteSpace and LineTerminator code points: TAB, LF, VT, FF,
   * CR, the space separators of Unicode category Zs, LINE SEPARATOR U+2028,
   * PARAGRAPH SEPARATOR U+2029 and the byte order mark U+FEFF. NEXT LINE
   * U+0085 is not white space in ECMAScript.
   */
  predicate IsWhiteSpace(c: char)
  {
    var n := c as int;
    n == 0x09 || n == 0x0A || n == 0x0B || n == 0x0C || n == 0x0D
    || n == 0x20 || n == 0xA0 || n == 0x1680
    || (0x2000 <= n <= 0x200A)
    || n == 0x2028 || n == 0x2029 || n == 0x202F || n == 0x205F
    || n == 0x3000 || n == 0xFEFF
  }

  /** A string made of white space only (the empty string included). */
  predicate Blank(s: string)
  {
    forall i :: 0 <= i < |s| ==> IsWhiteSpace(s[i])
  }

  /** `r` is `s` without a white-space prefix and a white-space suffix. */
  ghost predicate Unpadded(r: string, s: string)
  {
    exists lo, hi :: 0 <= lo <= hi <= |s| && r == s[lo..hi] && Blank(s[..lo]) && Blank(s[hi..])
  }

  /** Drops the leading white space of `s`. */
  function TrimStart(s: string): string
  {
    if s != [] && IsWhiteSpace(s[0]) then TrimStart(s[1..]) else s
  }

  /** Drops the trailing white space of `s`. */
  function TrimEnd(s: string): string
  {
    if s != [] && IsWhiteSpace(s[|s| - 1]) then TrimEnd(s[..|s| - 1]) else s
  }

  /** `TrimStart` cuts a white-space prefix and stops at the first other character. */
  lemma {:induction false} TrimStartCutsPrefix(s: string)
    ensures var r := TrimStart(s);
            && |r| <= |s| && r == s[|s| - |r|..]
            && (r == [] || !IsWhiteSpace(r[0]))
            && Blank(s[..|s| - |r|])
  {
    if s != [] && IsWhiteSpace(s[0]) {
      TrimStartCutsPrefix(s[1..]);
      var r := TrimStart(s[1..]);
      var cut := s[..|s| - |r|];
      forall i | 0 <= i < |cut| ensures IsWhiteSpace(cut[i]) {
        if 0 < i {
          assert cut[i] == s[1..][..|s| - 1 - |r|][i - 1];
        }
      }
    } else {
      assert s[..0] == [];
    }
  }

  /** `TrimEnd` cuts a white-space suffix and stops at the last other character. */
  lemma {:induction false} TrimEndCutsSuffix(s: string)
    ensures var r := TrimEnd(s);
            && |r| <= |s| && r == s[..|r|]
            && (r == [] || !IsWhiteSpace(r[|r| - 1]))
            && Blank(s[|r|..])
  {
    if s != [] && IsWhiteSpace(s[|s| - 1]) {
      TrimEndCutsSuffix(s[..|s| - 1]);
      var r := TrimEnd(s[..|s| - 1]);
      forall i | 0 <= i < |s| - |r| ensures IsWhiteSpace(s[|r|..][i]) {
        if i < |s| - 1 - |r| {
          assert s[|r|..][i] == s[..|s| - 1][|r|..][i];
        }
      }
    } else {
      assert s[|s|..] == [];
    }
  }

  /**
   * `s.trim()`: a contiguous piece of `s` that neither starts nor ends with
   * white space, and what was cut off on either side is white space.
   */
  function Trim(s: string): (r: string)
    ensures Unpadded(r, s)
    ensures r == [] || (!IsWhiteSpace(r[0]) && !IsWhiteSpace(r[|r| - 1]))
  {
    var a := TrimStart(s);
    var r := TrimEnd(a);
    TrimStartCutsPrefix(s);
    TrimEndCutsSuffix(a);
    var lo := |s| - |a|;
    assert r == s[lo..lo + |r|] by { assert r == a[..|r|]; }
    assert Blank(s[lo + |r|..]) by { assert s[lo + |r|..] == a[|r|..]; }
    r
  }

  /** `!s.trim()` holds exactly when `s` is white space only. */
  lemma TrimEmptyIffBlank(s: string)
    ensures Trim(s) == [] <==> Blank(s)
  {
  }
}
