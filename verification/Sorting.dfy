/** sort.Strings: an in-place sort, its order, and why its result is unique. */
module Sorting {

  /** Lexicographic order by code point. */
  predicate Leq(a: string, b: string) {
    a == "" || (b != "" && (a[0] < b[0] || (a[0] == b[0] && Leq(a[1..], b[1..]))))
  }

  lemma {:induction false} LeqTotal(a: string, b: string)
    ensures Leq(a, b) || Leq(b, a)
  {
    if a != "" && b != "" && a[0] == b[0] {
      LeqTotal(a[1..], b[1..]);
    }
  }

  lemma {:induction false} LeqAntisymmetric(a: string, b: string)
    requires Leq(a, b) && Leq(b, a)
    ensures a == b
  {
    if a != "" {
      LeqAntisymmetric(a[1..], b[1..]);
      assert a == [a[0]] + a[1..] && b == [b[0]] + b[1..];
    }
  }

  lemma {:induction false} LeqTransitive(a: string, b: string, c: string)
    requires Leq(a, b) && Leq(b, c)
    ensures Leq(a, c)
  {
    if a != "" && a[0] == b[0] == c[0] {
      LeqTransitive(a[1..], b[1..], c[1..]);
    }
  }

  ghost predicate Below(s: seq<string>, x: string) {
    forall k | 0 <= k < |s| :: Leq(s[k], x)
  }

  ghost predicate Sorted(s: seq<string>) {
    s == [] || (Sorted(s[..|s| - 1]) && Below(s[..|s| - 1], s[|s| - 1]))
  }

  /** The sequence with x put after everything not above it at the end. */
  function Insert(s: seq<string>, x: string): seq<string> {
    if s == [] || Leq(s[|s| - 1], x) then s + [x]
    else Insert(s[..|s| - 1], x) + [s[|s| - 1]]
  }

  function Sort(s: seq<string>): seq<string> {
    if s == [] then [] else Insert(Sort(s[..|s| - 1]), s[|s| - 1])
  }

  lemma {:induction false} InsertKeeps(s: seq<string>, x: string)
    requires Sorted(s)
    ensures Sorted(Insert(s, x)) && multiset(Insert(s, x)) == multiset(s) + multiset{x}
  {
    if s != [] {
      var init, last := s[..|s| - 1], s[|s| - 1];
      assert s == init + [last];
      if Leq(last, x) {
        forall k | 0 <= k < |s| ensures Leq(s[k], x) {
          if k < |init| {
            assert Leq(init[k], last);
            LeqTransitive(s[k], last, x);
          }
        }
        assert (s + [x])[..|s|] == s;
      } else {
        LeqTotal(last, x);
        InsertKeeps(init, x);
        var more := Insert(init, x);
        BelowPermutes(init + [x], more, last);
        assert (more + [last])[..|more|] == more;
      }
    }
  }

  lemma BelowPermutes(s: seq<string>, t: seq<string>, x: string)
    requires Below(s, x) && multiset(s) == multiset(t)
    ensures Below(t, x)
  {
    forall k | 0 <= k < |t| ensures Leq(t[k], x) {
      assert t[k] in multiset(t);
      assert t[k] in s;
    }
  }

  /** Sorting yields a sorted permutation. */
  lemma {:induction false} SortSorts(s: seq<string>)
    ensures Sorted(Sort(s)) && multiset(Sort(s)) == multiset(s)
  {
    if s != [] {
      SortSorts(s[..|s| - 1]);
      InsertKeeps(Sort(s[..|s| - 1]), s[|s| - 1]);
      WithoutLast(s);
    }
  }

  /** A multiset has only one sorted listing. */
  lemma {:induction false} SortedIsUnique(a: seq<string>, b: seq<string>)
    requires Sorted(a) && Sorted(b) && multiset(a) == multiset(b)
    ensures a == b
  {
    assert |a| == |multiset(a)| == |multiset(b)| == |b|;
    if a != [] {
      var n := |a| - 1;
      WithoutLast(a);
      WithoutLast(b);
      LastIsGreatest(a, b[n]);
      LastIsGreatest(b, a[n]);
      LeqAntisymmetric(a[n], b[n]);
      SortedIsUnique(a[..n], b[..n]);
    }
  }

  lemma WithoutLast(s: seq<string>)
    requires s != []
    ensures var n := |s| - 1;
            s == s[..n] + [s[n]] && s[n] in multiset(s) && multiset(s[..n]) == multiset(s) - multiset{s[n]}
  {
  }

  lemma LastIsGreatest(s: seq<string>, x: string)
    requires Sorted(s) && x in multiset(s)
    ensures Leq(x, s[|s| - 1])
  {
    LeqTotal(x, x);
    var k :| 0 <= k < |s| && s[k] == x;
    if k < |s| - 1 {
      assert s[..|s| - 1][k] == x;
    }
  }

  /** Permutations of one another sort to the same sequence. */
  lemma PermutationsSortAlike(a: seq<string>, b: seq<string>)
    requires multiset(a) == multiset(b)
    ensures Sort(a) == Sort(b)
  {
    SortSorts(a);
    SortSorts(b);
    SortedIsUnique(Sort(a), Sort(b));
  }

  /** Inserting at the place where the larger elements begin. */
  lemma {:induction false} InsertAt(s: seq<string>, x: string, j: nat)
    requires j <= |s|
    requires j == 0 || Leq(s[j - 1], x)
    requires forall k | j <= k < |s| :: !Leq(s[k], x)
    ensures Insert(s, x) == s[..j] + [x] + s[j..]
  {
    if j < |s| {
      InsertAt(s[..|s| - 1], x, j);
      assert s[j..] == s[..|s| - 1][j..] + [s[|s| - 1]];
    } else {
      assert s[..j] == s;
    }
  }

  /** The sequence with element i moved down to place j. */
  function Moved(s: seq<string>, i: nat, j: nat): seq<string>
    requires j <= i < |s|
  {
    s[..j] + [s[i]] + s[j..i] + s[i + 1..]
  }

  lemma MovedStep(s: seq<string>, i: nat, j: nat)
    requires 0 < j <= i < |s|
    ensures Moved(s, i, j)[j - 1] == s[j - 1] && Moved(s, i, j)[j] == s[i]
    ensures Moved(s, i, j)[j - 1 := s[i]][j := s[j - 1]] == Moved(s, i, j - 1)
  {
  }

  /** At the place where the larger elements begin, that is an insertion. */
  lemma MovedIsInserted(s: seq<string>, i: nat, j: nat)
    requires j <= i < |s| && (j == 0 || Leq(s[j - 1], s[i]))
    requires forall k | j <= k < i :: !Leq(s[k], s[i])
    ensures Moved(s, i, j)[..i + 1] == Insert(s[..i], s[i]) && Moved(s, i, j)[i + 1..] == s[i + 1..]
  {
    InsertAt(s[..i], s[i], j);
    assert Moved(s, i, j)[..i + 1] == s[..i][..j] + [s[i]] + s[..i][j..];
  }

  /** One more element is moved down to its place, in place. */
  method MoveDown(a: array<string>, i: nat)
    requires i < a.Length
    modifies a
    ensures a[..i + 1] == Insert(old(a[..i]), old(a[i]))
    ensures a[i + 1..] == old(a[i + 1..])
  {
    ghost var s := a[..];
    var j := i;
    assert s == Moved(s, i, i);
    while j > 0 && !Leq(a[j - 1], a[j])
      invariant 0 <= j <= i && a[..] == Moved(s, i, j)
      invariant forall k | j <= k < i :: !Leq(s[k], s[i])
    {
      MovedStep(s, i, j);
      assert a[j - 1] == a[..][j - 1] && a[j] == a[..][j];
      a[j - 1], a[j] := a[j], a[j - 1];
      assert a[..] == Moved(s, i, j)[j - 1 := s[i]][j := s[j - 1]];
      j := j - 1;
    }
    if j > 0 {
      MovedStep(s, i, j);
      assert a[j - 1] == a[..][j - 1] && a[j] == a[..][j];
    }
    MovedIsInserted(s, i, j);
    assert s[..i] == old(a[..i]) && a[..i + 1] == a[..][..i + 1] && a[i + 1..] == a[..][i + 1..];
  }

  method SortStrings(a: array<string>)
    modifies a
    ensures a[..] == Sort(old(a[..]))
  {
    ghost var was := a[..];
    for i := 0 to a.Length
      invariant a[..i] == Sort(was[..i]) && a[i..] == was[i..]
    {
      assert was[..i + 1][..i] == was[..i] && was[i] == was[i..][0] == a[i..][0];
      assert was[i + 1..] == was[i..][1..] == a[i..][1..] == a[i + 1..];
      MoveDown(a, i);
    }
    assert a[..a.Length] == a[..] && was[..a.Length] == was;
  }
}
