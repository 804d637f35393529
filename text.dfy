/** The string operations the detectors use, over `seq<char>`: ASCII
    lower-casing, substring search (`in`, `str.find`), non-overlapping
    occurrence counting (`str.count`) and `str.join`. */
module Text {

  /** ASCII lower-casing of one character; every other character is kept. */
  function LowerChar(c: char): char
  {
    if 'A' <= c <= 'Z' then (c as int + 32) as char else c
  }

  /** `s.lower()`, restricted to ASCII letters. */
  function Lower(s: string): (r: string)
    ensures |r| == |s|
    ensures forall i :: 0 <= i < |s| ==> r[i] == LowerChar(s[i])
  {
    seq(|s|, i requires 0 <= i < |s| => LowerChar(s[i]))
  }

  /** `p` occurs in `s` starting at index `i`. */
  predicate OccursAt(p: string, s: string, i: int)
  {
    0 <= i && i + |p| <= |s| && s[i..i + |p|] == p
  }

  /** Python's `p in s`: the reference definition of a substring. */
  ghost predicate IsSubstring(p: string, s: string)
  {
    exists i :: OccursAt(p, s, i)
  }

  /** The scan behind `s.find(p, k)`: the first occurrence at or after `k`. */
  function IndexFrom(s: string, p: string, k: nat): (r: int)
    ensures r == -1 || (k <= r && OccursAt(p, s, r))
    ensures r == -1 ==> forall j :: k <= j ==> !OccursAt(p, s, j)
    ensures r >= 0 ==> forall j :: k <= j < r ==> !OccursAt(p, s, j)
    decreases |s| - k
  {
    if k + |p| > |s| then -1
    else if s[k..k + |p|] == p then k
    else IndexFrom(s, p, k + 1)
  }

  /** `s.find(p)`: the index of the first occurrence of `p`, or -1. */
  function IndexOf(s: string, p: string): (r: int)
    ensures r == -1 <==> !IsSubstring(p, s)
    ensures r >= 0 ==> OccursAt(p, s, r) && forall j :: 0 <= j < r ==> !OccursAt(p, s, j)
  {
    IndexFrom(s, p, 0)
  }

  /** `p in s`. */
  predicate Contains(s: string, p: string)
    ensures Contains(s, p) <==> IsSubstring(p, s)
  {
    IndexOf(s, p) >= 0
  }

  /** The scan behind `s.count(p)` from index `k` for a non-empty `p`: each
      match resumes the search just past itself, so matches do not overlap. */
  function CountFrom(s: string, p: string, k: nat): nat
    requires |p| > 0
    decreases |s| - k
  {
    if k + |p| > |s| then 0
    else if s[k..k + |p|] == p then 1 + CountFrom(s, p, k + |p|)
    else CountFrom(s, p, k + 1)
  }

  lemma {:induction false} CountFromPositive(s: string, p: string, k: nat)
    requires |p| > 0
    ensures CountFrom(s, p, k) > 0 <==> exists j :: k <= j && OccursAt(p, s, j)
    decreases |s| - k
  {
    if k + |p| > |s| {
      assert forall j :: k <= j ==> !OccursAt(p, s, j);
    } else if s[k..k + |p|] == p {
      assert OccursAt(p, s, k);
    } else {
      CountFromPositive(s, p, k + 1);
      assert !OccursAt(p, s, k);
      assert forall j :: k <= j && OccursAt(p, s, j) ==> k + 1 <= j;
    }
  }

  lemma {:induction false} CountFromBound(s: string, p: string, k: nat)
    requires |p| > 0 && k <= |s|
    ensures CountFrom(s, p, k) * |p| <= |s| - k
    decreases |s| - k
  {
    if k + |p| > |s| {
    } else if s[k..k + |p|] == p {
      CountFromBound(s, p, k + |p|);
    } else {
      CountFromBound(s, p, k + 1);
    }
  }

  /** `s.count(p)`: the number of non-overlapping occurrences of `p` in `s`
      (for an empty `p`, Python answers `len(s) + 1`). */
  function Count(s: string, p: string): nat
  {
    if |p| == 0 then |s| + 1 else CountFrom(s, p, 0)
  }

  /** `pos` lists occurrences of `p` in `s` at or after `k`, left to right,
      each one ending before the next begins. */
  ghost predicate OccurrenceChain(s: string, p: string, k: int, pos: seq<int>)
  {
    (forall j :: 0 <= j < |pos| ==> k <= pos[j] && OccursAt(p, s, pos[j])) &&
    (forall j :: 0 <= j < |pos| - 1 ==> pos[j] + |p| <= pos[j + 1])
  }

  /** No chain of non-overlapping occurrences from `k` on is longer than
      the count the scan reports. */
  lemma {:induction false} CountAtLeast(s: string, p: string, k: nat, pos: seq<int>)
    requires |p| > 0 && OccurrenceChain(s, p, k, pos)
    ensures CountFrom(s, p, k) >= |pos|
    decreases |s| - k
  {
    if k + |p| > |s| {
      assert pos != [] ==> OccursAt(p, s, pos[0]);
    } else if s[k..k + |p|] == p {
      if pos != [] {
        assert OccurrenceChain(s, p, k + |p|, pos[1..]) by {
          forall j | 0 <= j < |pos| - 1
            ensures k + |p| <= pos[1..][j]
          {
            PositionsIncrease(s, p, k, pos, j + 1);
          }
        }
        CountAtLeast(s, p, k + |p|, pos[1..]);
      }
    } else {
      assert !OccursAt(p, s, k);
      CountAtLeast(s, p, k + 1, pos);
    }
  }

  /** In a chain, every later position is at least `|p|` past the first. */
  lemma {:induction false} PositionsIncrease(s: string, p: string, k: int, pos: seq<int>, j: nat)
    requires OccurrenceChain(s, p, k, pos) && 0 < j < |pos|
    ensures pos[0] + |p| <= pos[j]
    decreases j
  {
    if j > 1 {
      PositionsIncrease(s, p, k, pos, j - 1);
    }
  }

  /** The scan's count is attained: its matches form a chain of that length. */
  lemma {:induction false} CountWitnessed(s: string, p: string, k: nat) returns (pos: seq<int>)
    requires |p| > 0
    ensures OccurrenceChain(s, p, k, pos) && |pos| == CountFrom(s, p, k)
    decreases |s| - k
  {
    if k + |p| > |s| {
      pos := [];
    } else if s[k..k + |p|] == p {
      var rest := CountWitnessed(s, p, k + |p|);
      pos := [k] + rest;
      assert OccursAt(p, s, k);
    } else {
      pos := CountWitnessed(s, p, k + 1);
    }
  }

  /** The count is the number of non-overlapping occurrences: no chain of
      them is longer and one has exactly that length. It is positive
      exactly when `p` occurs, an empty pattern counts every gap between
      characters, and the counted occurrences fit inside `s`. */
  lemma CountMeaning(s: string, p: string)
    ensures |p| > 0 ==> forall pos :: OccurrenceChain(s, p, 0, pos) ==> |pos| <= Count(s, p)
    ensures |p| > 0 ==> exists pos :: OccurrenceChain(s, p, 0, pos) && |pos| == Count(s, p)
    ensures Count(s, p) > 0 <==> IsSubstring(p, s)
    ensures |p| == 0 ==> Count(s, p) == |s| + 1
    ensures |p| > 0 ==> Count(s, p) * |p| <= |s|
  {
    if |p| == 0 {
      assert OccursAt(p, s, 0);
    } else {
      CountFromPositive(s, p, 0);
      CountFromBound(s, p, 0);
      forall pos | OccurrenceChain(s, p, 0, pos)
        ensures |pos| <= Count(s, p)
      {
        CountAtLeast(s, p, 0, pos);
      }
      var chain := CountWitnessed(s, p, 0);
    }
  }

  /** `sum(len(m) for m in parts)`. */
  function TotalLength(parts: seq<string>): nat
    decreases |parts|
  {
    if parts == [] then 0 else |parts[0]| + TotalLength(parts[1..])
  }

  /** `sep.join(parts)`: every part in order, with one separator between
      neighbours, so its length is the parts' total plus one separator per
      gap, and a single part is joined to itself. */
  function Join(sep: string, parts: seq<string>): (r: string)
    ensures |parts| > 0 ==> |r| == TotalLength(parts) + (|parts| - 1) * |sep|
    ensures |parts| > 0 ==> parts[0] <= r
    ensures parts == [] ==> r == ""
    decreases |parts|
  {
    if parts == [] then ""
    else if |parts| == 1 then parts[0]
    else parts[0] + sep + Join(sep, parts[1..])
  }

  lemma SubstringOfPrefix(p: string, a: string, b: string)
    requires IsSubstring(p, a)
    ensures IsSubstring(p, a + b)
  {
    var i :| OccursAt(p, a, i);
    assert (a + b)[i..i + |p|] == a[i..i + |p|];
    assert OccursAt(p, a + b, i);
  }

  lemma SubstringOfSuffix(p: string, a: string, b: string)
    requires IsSubstring(p, b)
    ensures IsSubstring(p, a + b)
  {
    var i :| OccursAt(p, b, i);
    assert (a + b)[|a| + i..|a| + i + |p|] == b[i..i + |p|];
    assert OccursAt(p, a + b, |a| + i);
  }

  /** Whatever occurs inside one of the joined parts occurs in the join. */
  lemma {:induction false} SubstringOfJoin(p: string, sep: string, parts: seq<string>, k: nat)
    requires k < |parts| && IsSubstring(p, parts[k])
    ensures IsSubstring(p, Join(sep, parts))
    decreases |parts|
  {
    if |parts| > 1 {
      if k == 0 {
        SubstringOfPrefix(p, parts[0], sep + Join(sep, parts[1..]));
        assert parts[0] + sep + Join(sep, parts[1..]) == parts[0] + (sep + Join(sep, parts[1..]));
      } else {
        SubstringOfJoin(p, sep, parts[1..], k - 1);
        SubstringOfSuffix(p, parts[0] + sep, Join(sep, parts[1..]));
      }
    }
  }

  /** Lower-casing keeps every occurrence in place. */
  lemma LowerKeepsSubstring(p: string, s: string)
    requires IsSubstring(p, s)
    ensures IsSubstring(Lower(p), Lower(s))
  {
    var i :| OccursAt(p, s, i);
    assert Lower(s)[i..i + |p|] == Lower(p);
    assert OccursAt(Lower(p), Lower(s), i);
  }

  /** A substring of a substring is a substring. */
  lemma SubstringTransitive(a: string, b: string, c: string)
    requires IsSubstring(a, b) && IsSubstring(b, c)
    ensures IsSubstring(a, c)
  {
    var i :| OccursAt(a, b, i);
    var j :| OccursAt(b, c, j);
    forall t | 0 <= t < |a|
      ensures c[j + i..j + i + |a|][t] == a[t]
    {
      assert c[j + i + t] == c[j..j + |b|][i + t] == b[i + t];
      assert b[i + t] == b[i..i + |a|][t];
    }
    assert OccursAt(a, c, j + i);
  }
}
