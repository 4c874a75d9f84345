/**
  The few `System.String` and `System.Char` operations the optimiser relies on:
  `ToLower`, `Contains`, `IndexOf`, `LastIndexOf`, `Trim`, `IsNullOrEmpty` and
  `IsNullOrWhiteSpace`. Strings are sequences of characters.
*/
module Text {
  import opened Wrappers

  /** Lower-casing of one character. Only the letters A to Z are mapped; the
      culture-sensitive mapping of other scripts is not modelled. */
  function LowerChar(c: char): (r: char)
    ensures 'A' <= c <= 'Z' ==> 'a' <= r <= 'z' && r as int - c as int == 32
    ensures !('A' <= c <= 'Z') ==> r == c
  {
    if 'A' <= c <= 'Z' then (c as int + 32) as char else c
  }

  /** `s.ToLower()`: the same length, lower-cased character by character. */
  function ToLower(s: string): (r: string)
    ensures |r| == |s|
    ensures forall i :: 0 <= i < |s| ==> r[i] == LowerChar(s[i])
  {
    seq(|s|, i requires 0 <= i < |s| => LowerChar(s[i]))
  }

  /** `t` occurs in `s` starting at index `i`. */
  predicate OccursAt(s: string, t: string, i: nat) {
    i + |t| <= |s| && s[i..i + |t|] == t
  }

  /** `s.Contains(t)`: ordinal substring search. */
  predicate Contains(s: string, t: string)
    decreases |s|
  {
    |t| <= |s| && (s[..|t|] == t || (s != [] && Contains(s[1..], t)))
  }

  /** `Contains` holds exactly when `t` occurs at some index of `s`. */
  lemma {:induction false} ContainsIffOccurs(s: string, t: string)
    ensures Contains(s, t) <==> exists i: nat :: OccursAt(s, t, i)
    decreases |s|
  {
    if |t| <= |s| && s[..|t|] != t && s != [] {
      ContainsIffOccurs(s[1..], t);
      if Contains(s[1..], t) {
        var i: nat :| OccursAt(s[1..], t, i);
        assert s[i + 1..i + 1 + |t|] == s[1..][i..i + |t|];
        assert OccursAt(s, t, i + 1);
      }
      if exists i: nat :: OccursAt(s, t, i) {
        var i: nat :| OccursAt(s, t, i);
        assert i != 0;
        assert s[1..][i - 1..i - 1 + |t|] == s[i..i + |t|];
        assert OccursAt(s[1..], t, i - 1);
      }
    } else if |t| <= |s| && s[..|t|] == t {
      assert OccursAt(s, t, 0);
    }
  }

  /** Every character of a contained string is a character of the container,
      so one missing character rules a keyword out. */
  lemma {:induction false} ContainedCharsOccur(s: string, t: string)
    ensures Contains(s, t) ==> forall c :: c in t ==> c in s
    decreases |s|
  {
    if |t| <= |s| && s[..|t|] == t {
      forall c | c in t ensures c in s {
        var k :| 0 <= k < |t| && t[k] == c;
        assert s[k] == c;
      }
    } else if s != [] {
      ContainedCharsOccur(s[1..], t);
    }
  }

  /** `s.IndexOf(c)`: the first index holding `c`, or -1. */
  function IndexOf(s: string, c: char): (r: int)
    ensures -1 <= r < |s|
    ensures r >= 0 ==> s[r] == c && forall j :: 0 <= j < r ==> s[j] != c
    ensures r == -1 ==> forall j :: 0 <= j < |s| ==> s[j] != c
  {
    if s == [] then -1
    else if s[0] == c then 0
    else
      var k := IndexOf(s[1..], c);
      if k < 0 then -1 else k + 1
  }

  /** `s.LastIndexOf(c)`: the last index holding `c`, or -1. */
  function LastIndexOf(s: string, c: char): (r: int)
    ensures -1 <= r < |s|
    ensures r >= 0 ==> s[r] == c && forall j :: r < j < |s| ==> s[j] != c
    ensures r == -1 ==> forall j :: 0 <= j < |s| ==> s[j] != c
  {
    if s == [] then -1
    else if s[|s| - 1] == c then |s| - 1
    else LastIndexOf(s[..|s| - 1], c)
  }

  /** `char.IsWhiteSpace`: the separators of Unicode categories Zs, Zl and Zp,
      the control characters U+0009 to U+000D, and U+0085. */
  predicate IsWhiteSpace(c: char) {
    c in WhiteSpaceChars
  }

  const WhiteSpaceChars: set<char> := {
    '\U{0009}', '\U{000A}', '\U{000B}', '\U{000C}', '\U{000D}', '\U{0020}', '\U{0085}', '\U{00A0}',
    '\U{1680}', '\U{2000}', '\U{2001}', '\U{2002}', '\U{2003}', '\U{2004}', '\U{2005}', '\U{2006}',
    '\U{2007}', '\U{2008}', '\U{2009}', '\U{200A}', '\U{2028}', '\U{2029}', '\U{202F}', '\U{205F}',
    '\U{3000}'
  }

  predicate AllWhiteSpace(s: string) {
    forall i :: 0 <= i < |s| ==> IsWhiteSpace(s[i])
  }

  /** `string.IsNullOrEmpty`, with `None` for `null`. */
  predicate IsNullOrEmpty(s: Option<string>) {
    s == None || s == Some("")
  }

  /** `string.IsNullOrWhiteSpace` of a non-null string. */
  predicate IsNullOrWhiteSpace(s: string) {
    AllWhiteSpace(s)
  }

  /** `s.TrimStart()`: drops the leading white space and nothing else. */
  function TrimStart(s: string): (r: string)
    ensures |r| <= |s| && r == s[|s| - |r|..]
    ensures forall i :: 0 <= i < |s| - |r| ==> IsWhiteSpace(s[i])
    ensures r == [] || !IsWhiteSpace(r[0])
  {
    if s != [] && IsWhiteSpace(s[0]) then
      var r := TrimStart(s[1..]);
      assert s[1..][|s| - 1 - |r|..] == s[|s| - |r|..];
      assert forall i :: 1 <= i < |s| - |r| ==> s[i] == s[1..][i - 1];
      r
    else s
  }

  /** `s.TrimEnd()`: drops the trailing white space and nothing else. */
  function TrimEnd(s: string): (r: string)
    ensures |r| <= |s| && r == s[..|r|]
    ensures forall i :: |r| <= i < |s| ==> IsWhiteSpace(s[i])
    ensures r == [] || !IsWhiteSpace(r[|r| - 1])
  {
    if s != [] && IsWhiteSpace(s[|s| - 1]) then
      var r := TrimEnd(s[..|s| - 1]);
      assert s[..|s| - 1][..|r|] == s[..|r|];
      assert forall i :: |r| <= i < |s| - 1 ==> s[i] == s[..|s| - 1][i];
      r
    else s
  }

  /** `s.Trim()`: a contiguous piece of `s` that neither starts nor ends with
      white space, and is empty exactly when `s` is all white space. */
  function Trim(s: string): (r: string)
    ensures |r| <= |s|
    ensures r == [] || (!IsWhiteSpace(r[0]) && !IsWhiteSpace(r[|r| - 1]))
    ensures r == [] <==> AllWhiteSpace(s)
    ensures exists i :: 0 <= i <= |s| - |r| && r == s[i..i + |r|]
                        && AllWhiteSpace(s[..i]) && AllWhiteSpace(s[i + |r|..])
  {
    var t := TrimStart(s);
    var r := TrimEnd(t);
    TrimSurroundings(s, t, r);
    r
  }

  /** What `TrimStart` and then `TrimEnd` keep: a slice of `s` with white
      space on each side, which is empty exactly when `s` is all white space
      and otherwise starts and ends with other characters. */
  lemma TrimSurroundings(s: string, t: string, r: string)
    requires |t| <= |s| && t == s[|s| - |t|..] && forall k :: 0 <= k < |s| - |t| ==> IsWhiteSpace(s[k])
    requires t == [] || !IsWhiteSpace(t[0])
    requires |r| <= |t| && r == t[..|r|] && forall k :: |r| <= k < |t| ==> IsWhiteSpace(t[k])
    requires r == [] || !IsWhiteSpace(r[|r| - 1])
    ensures r == [] || (!IsWhiteSpace(r[0]) && !IsWhiteSpace(r[|r| - 1]))
    ensures r == [] <==> AllWhiteSpace(s)
    ensures exists i :: 0 <= i <= |s| - |r| && r == s[i..i + |r|]
                        && AllWhiteSpace(s[..i]) && AllWhiteSpace(s[i + |r|..])
  {
    var i := |s| - |t|;
    assert r != [] ==> r[0] == t[0];
    assert r == [] ==> t == [];
    SliceOfSuffix(s, t, r, i);
    WhiteSpacePrefix(s, i);
    assert s[i + |r|..] == t[|r|..];
    WhiteSpaceSuffix(t, |r|);
    assert 0 <= i <= |s| - |r| && r == s[i..i + |r|]
      && AllWhiteSpace(s[..i]) && AllWhiteSpace(s[i + |r|..]);
  }

  /** A prefix of a suffix is a slice. */
  lemma SliceOfSuffix(s: string, t: string, r: string, i: nat)
    requires i <= |s| && t == s[i..] && |r| <= |t| && r == t[..|r|]
    ensures i + |r| <= |s| && r == s[i..i + |r|]
  {
  }

  lemma WhiteSpacePrefix(s: string, n: nat)
    requires n <= |s| && forall k :: 0 <= k < n ==> IsWhiteSpace(s[k])
    ensures AllWhiteSpace(s[..n])
  {
    forall k | 0 <= k < n ensures IsWhiteSpace(s[..n][k]) {
      assert s[..n][k] == s[k];
    }
  }

  lemma WhiteSpaceSuffix(s: string, n: nat)
    requires n <= |s| && forall k :: n <= k < |s| ==> IsWhiteSpace(s[k])
    ensures AllWhiteSpace(s[n..])
  {
    forall k | 0 <= k < |s| - n ensures IsWhiteSpace(s[n..][k]) {
      assert s[n..][k] == s[n + k];
    }
  }
}
