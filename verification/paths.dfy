/**
  `System.IO.Path` as .NET implements it on Unix-like systems, where '/' is
  the only directory separator: `GetFileName`, `Combine` of two parts and
  `GetDirectoryName`.
*/
module Paths {
  import opened Wrappers
  import opened Text

  const Separator: char := '/'

  predicate HasSeparator(s: string) {
    exists i :: 0 <= i < |s| && s[i] == Separator
  }

  /** `Path.GetFileName(p)`: what follows the last separator. */
  function FileName(p: string): (r: string)
    ensures !HasSeparator(r)
    ensures |r| <= |p| && r == p[|p| - |r|..]
  {
    var i := LastIndexOf(p, Separator);
    p[i + 1..]
  }

  /** `Path.IsPathRooted` on Unix. */
  predicate IsRooted(p: string) {
    |p| > 0 && p[0] == Separator
  }

  /** `Path.Combine(first, second)`: an empty part yields the other, a rooted
      second part wins, and otherwise exactly one separator joins the two. */
  function Combine(first: string, second: string): (r: string)
    ensures second == "" ==> r == first
    ensures second != "" && (first == "" || IsRooted(second)) ==> r == second
    ensures second != "" && first != "" && !IsRooted(second) ==>
      r == first + (if first[|first| - 1] == Separator then "" else [Separator]) + second
  {
    if second == "" then first
    else if first == "" then second
    else if IsRooted(second) then second
    else if first[|first| - 1] == Separator then first + second
    else first + [Separator] + second
  }

  /** A name combined under any directory is found again by `FileName`. */
  lemma FileNameOfCombine(dir: string, name: string)
    requires name != "" && !HasSeparator(name)
    ensures FileName(Combine(dir, name)) == name
  {
    if dir == "" || IsRooted(name) {
      FileNameAfter("", name);
      assert "" + name == name;
    } else if dir[|dir| - 1] == Separator {
      FileNameAfter(dir, name);
    } else {
      FileNameAfter(dir + [Separator], name);
    }
  }

  /** Behind a prefix that is empty or ends in a separator, a name without
      separators is the file name. */
  lemma FileNameAfter(prefix: string, name: string)
    requires prefix == "" || prefix[|prefix| - 1] == Separator
    requires !HasSeparator(name)
    ensures FileName(prefix + name) == name
  {
    var c := prefix + name;
    assert forall j :: |prefix| <= j < |c| ==> c[j] == name[j - |prefix|];
    assert prefix != "" ==> c[|prefix| - 1] == Separator;
    assert c[|prefix|..] == name;
  }

  /** Index just past the last separator at or after `root`, or `root`. */
  function LastSeparatorEnd(p: string, root: nat, end: nat): (r: nat)
    requires root <= end <= |p|
    ensures root <= r <= end
    ensures r > root ==> p[r - 1] == Separator
    ensures forall k :: r <= k < end ==> p[k] != Separator
    decreases end
  {
    if end <= root then root
    else if p[end - 1] == Separator then end
    else LastSeparatorEnd(p, root, end - 1)
  }

  /** Moves `end` back over separators, never below `root`. */
  function TrimSeparators(p: string, root: nat, end: nat): (r: nat)
    requires root <= end <= |p|
    ensures root <= r <= end
    ensures r > root ==> p[r - 1] != Separator
    ensures forall k :: r <= k < end ==> p[k] == Separator
    decreases end
  {
    if end > root && p[end - 1] == Separator then TrimSeparators(p, root, end - 1) else end
  }

  /** `Path.GetDirectoryName(p)`: `None` (C#'s `null`) for an empty path or a
      bare root; otherwise the part before the last separator, without
      trailing separators, "" when `p` has no separator, "/" for a file in the
      root directory. */
  function DirectoryName(p: string): (r: Option<string>)
    ensures r == None <==> p == "" || p == [Separator]
    ensures r.Some? ==> |r.value| < |p| && r.value == p[..|r.value|]
    ensures r.Some? && !HasSeparator(p) ==> r.value == ""
    ensures r.Some? ==> r.value == "" || r.value == [Separator] || r.value[|r.value| - 1] != Separator
  {
    var root: nat := if IsRooted(p) then 1 else 0;
    if |p| <= root then None
    else
      var afterSep := LastSeparatorEnd(p, root, |p|);
      var end := if afterSep == root then root else TrimSeparators(p, root, afterSep - 1);
      Some(p[..end])
  }

  /** A name combined under a directory that `DirectoryName` could return
      has that directory as its directory name. */
  lemma DirectoryNameOfCombine(dir: string, name: string)
    requires name != "" && !HasSeparator(name)
    requires dir == "" || dir == [Separator] || dir[|dir| - 1] != Separator
    ensures DirectoryName(Combine(dir, name)) == Some(dir)
  {
    var p := Combine(dir, name);
    if dir == "" {
      assert p == name;
      assert LastSeparatorEnd(p, 0, |p|) == 0;
    } else if dir == [Separator] {
      assert p == dir + name;
      assert forall k :: 1 <= k < |p| ==> p[k] == name[k - 1];
      assert LastSeparatorEnd(p, 1, |p|) == 1;
    } else {
      assert p == dir + [Separator] + name;
      var root: nat := if IsRooted(p) then 1 else 0;
      assert forall k :: |dir| < k < |p| ==> p[k] == name[k - |dir| - 1];
      assert p[|dir|] == Separator;
      assert LastSeparatorEnd(p, root, |p|) == |dir| + 1;
      assert p[|dir| - 1] == dir[|dir| - 1];
      assert TrimSeparators(p, root, |dir|) == |dir|;
      assert p[..|dir|] == dir;
    }
  }
}
