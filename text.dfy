/** Python's string primitives the core relies on: `find`, `rfind`,
    `strip` and `split` on one character. */
module Text {

  /** `s.find(c)`: the first index of `c`, or -1. */
  function Find(s: string, c: char): (i: int)
    ensures -1 <= i < |s|
    ensures i >= 0 ==> s[i] == c
    ensures forall k :: 0 <= k < |s| && (i == -1 || k < i) ==> s[k] != c
  {
    FindFrom(s, c, 0)
  }

  /** `s.rfind(c)`: the last index of `c`, or -1. */
  function RFind(s: string, c: char): (i: int)
    ensures -1 <= i < |s|
    ensures i >= 0 ==> s[i] == c
    ensures forall k :: i < k < |s| ==> s[k] != c
  {
    RFindBelow(s, c, |s|)
  }

  /** `s.find(c, start)`: the first index of `c` at or after `start`, or -1. */
  function FindFrom(s: string, c: char, start: nat): (i: int)
    requires start <= |s|
    ensures i == -1 || start <= i < |s|
    ensures i >= 0 ==> s[i] == c
    ensures forall k :: start <= k < |s| && (i == -1 || k < i) ==> s[k] != c
    decreases |s| - start
  {
    if start == |s| then -1
    else if s[start] == c then start
    else FindFrom(s, c, start + 1)
  }

  /** `s.rfind(c, 0, end)`: the last index of `c` below `end`, or -1. */
  function RFindBelow(s: string, c: char, end: nat): (i: int)
    requires end <= |s|
    ensures -1 <= i < end
    ensures i >= 0 ==> s[i] == c
    ensures forall k :: i < k < end ==> s[k] != c
  {
    if end == 0 then -1
    else if s[end - 1] == c then end - 1
    else RFindBelow(s, c, end - 1)
  }

  /** The index of the first character at or after `k` that `drop` keeps,
      or `|s|`. */
  function SkipLeft(s: string, drop: char -> bool, k: nat): (r: nat)
    requires k <= |s|
    ensures k <= r <= |s|
    ensures forall i :: k <= i < r ==> drop(s[i])
    ensures r < |s| ==> !drop(s[r])
    decreases |s| - k
  {
    if k < |s| && drop(s[k]) then SkipLeft(s, drop, k + 1) else k
  }

  /** The length of the longest prefix of `s[..n]` that does not end in a
      character `drop` drops. */
  function SkipRight(s: string, drop: char -> bool, n: nat): (r: nat)
    requires n <= |s|
    ensures r <= n
    ensures forall i :: r <= i < n ==> drop(s[i])
    ensures r > 0 ==> !drop(s[r - 1])
  {
    if n > 0 && drop(s[n - 1]) then SkipRight(s, drop, n - 1) else n
  }

  /** The suffix left after dropping the leading characters that satisfy
      `drop` (`s.lstrip(chars)`). */
  function TrimLeft(s: string, drop: char -> bool): (r: string)
    ensures |r| <= |s| && r == s[|s| - |r|..]
    ensures forall i :: 0 <= i < |s| - |r| ==> drop(s[i])
    ensures r != "" ==> !drop(r[0])
  {
    s[SkipLeft(s, drop, 0)..]
  }

  /** The prefix left after dropping the trailing characters that satisfy
      `drop` (`s.rstrip(chars)`). */
  function TrimRight(s: string, drop: char -> bool): (r: string)
    ensures |r| <= |s| && r == s[..|r|]
    ensures forall i :: |r| <= i < |s| ==> drop(s[i])
    ensures r != "" ==> !drop(r[|r| - 1])
  {
    s[..SkipRight(s, drop, |s|)]
  }

  /** `s.strip(chars)` */
  function Trim(s: string, drop: char -> bool): string {
    TrimRight(TrimLeft(s, drop), drop)
  }

  /** A trimmed string is empty exactly when every character is dropped;
      otherwise it is a slice of `s` that starts and ends with a kept
      character. */
  lemma TrimSpec(s: string, drop: char -> bool)
    ensures Trim(s, drop) == "" <==> forall i :: 0 <= i < |s| ==> drop(s[i])
    ensures Trim(s, drop) != "" ==>
      !drop(Trim(s, drop)[0]) && !drop(Trim(s, drop)[|Trim(s, drop)| - 1])
  {
    var l := TrimLeft(s, drop);
    var r := TrimRight(l, drop);
    if r != "" {
      assert r[0] == l[0];
    }
  }

  /** `s.split(c)`: the pieces between the occurrences of `c`. */
  function SplitOn(s: string, c: char): (parts: seq<string>)
    ensures |parts| >= 1
    ensures forall k :: 0 <= k < |parts| ==> c !in parts[k]
    decreases |s|
  {
    var i := Find(s, c);
    if i < 0 then [s] else [s[..i]] + SplitOn(s[i + 1..], c)
  }

  /** `c.join(parts)` */
  function JoinOn(parts: seq<string>, c: char): string
    requires |parts| >= 1
  {
    if |parts| == 1 then parts[0] else parts[0] + [c] + JoinOn(parts[1..], c)
  }

  lemma SplitOnFound(s: string, c: char, i: int)
    requires 0 <= i == Find(s, c)
    ensures SplitOn(s, c) == [s[..i]] + SplitOn(s[i + 1..], c)
  {
  }

  lemma JoinOnCons(a: string, rest: seq<string>, c: char)
    requires |rest| >= 1
    ensures JoinOn([a] + rest, c) == a + [c] + JoinOn(rest, c)
  {
    assert ([a] + rest)[1..] == rest;
  }

  /** Joining the pieces of a split gives the string back. */
  lemma {:induction false} JoinSplit(s: string, c: char)
    ensures JoinOn(SplitOn(s, c), c) == s
    decreases |s|
  {
    var i := Find(s, c);
    if i >= 0 {
      var t := s[i + 1..];
      SplitOnFound(s, c, i);
      JoinSplit(t, c);
      JoinOnCons(s[..i], SplitOn(t, c), c);
      assert s == s[..i] + [c] + t;
    } else {
      assert SplitOn(s, c) == [s];
    }
  }

  /** Splitting a join of pieces free of `c` gives the pieces back. */
  lemma {:induction false} SplitJoin(parts: seq<string>, c: char)
    requires |parts| >= 1
    requires forall k :: 0 <= k < |parts| ==> c !in parts[k]
    ensures SplitOn(JoinOn(parts, c), c) == parts
  {
    if |parts| > 1 {
      var a, rest := parts[0], parts[1..];
      var tail := JoinOn(rest, c);
      assert parts == [a] + rest;
      JoinOnCons(a, rest, c);
      var s := a + [c] + tail;
      assert s[|a|] == c && s[..|a|] == a && s[|a| + 1..] == tail;
      FindFirst(s, c, |a|);
      SplitOnFound(s, c, |a|);
      SplitJoin(rest, c);
    } else {
      var s := parts[0];
      assert Find(s, c) == -1;
    }
  }

  lemma SplitOnAbsent(s: string, c: char)
    requires c !in s
    ensures SplitOn(s, c) == [s]
    ensures RFind(s, c) == -1
  {
  }

  /** The last piece of a split is what follows the last `c`. */
  lemma {:induction false} SplitLast(s: string, c: char)
    ensures SplitOn(s, c)[|SplitOn(s, c)| - 1] == s[RFind(s, c) + 1..]
    decreases |s|
  {
    var i := Find(s, c);
    if i >= 0 {
      var t := s[i + 1..];
      SplitLastStep(s, c, i);
      SplitLast(t, c);
      RFindAfter(s, c, i);
      assert s[i + 1 + RFind(t, c) + 1..] == t[RFind(t, c) + 1..];
    } else {
      SplitOnAbsent(s, c);
    }
  }

  lemma SplitLastStep(s: string, c: char, i: int)
    requires 0 <= i == Find(s, c)
    ensures SplitOn(s, c)[|SplitOn(s, c)| - 1] == SplitOn(s[i + 1..], c)[|SplitOn(s[i + 1..], c)| - 1]
  {
    SplitOnFound(s, c, i);
  }

  /** Past an occurrence of `c`, `rfind` looks only at what follows it. */
  lemma RFindAfter(s: string, c: char, i: int)
    requires 0 <= i < |s| && s[i] == c
    ensures RFind(s, c) == i + 1 + RFind(s[i + 1..], c)
  {
    var t := s[i + 1..];
    var j := RFind(t, c);
    forall k | i + 1 + j < k < |s|
      ensures s[k] != c
    {
      assert s[k] == t[k - i - 1];
    }
    RFindLast(s, c, i + 1 + j);
  }

  /** An occurrence of `c` followed by no other is the one `rfind` finds. */
  lemma RFindLast(s: string, c: char, k: int)
    requires 0 <= k < |s| && s[k] == c && forall j :: k < j < |s| ==> s[j] != c
    ensures RFind(s, c) == k
  {
  }

  /** An occurrence of `c` preceded by no other is the one `find` finds. */
  lemma FindFirst(s: string, c: char, k: int)
    requires 0 <= k < |s| && s[k] == c && forall j :: 0 <= j < k ==> s[j] != c
    ensures Find(s, c) == k
  {
  }
}
