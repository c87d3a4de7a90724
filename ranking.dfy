/** `sorted([(score, path) ...], reverse=True)` in `process_duplicates`
    (main.py): Python's tuple and string ordering, and the descending sort whose
    head is the keeper. */
module Ranking {
  import opened Basics

  /** Python's `<` on `str`: code point by code point, a proper prefix first. */
  predicate StrLess(a: string, b: string)
  {
    if a == [] then b != []
    else if b == [] then false
    else if a[0] == b[0] then StrLess(a[1..], b[1..])
    else a[0] < b[0]
  }

  lemma {:induction false} StrLessIrreflexive(a: string)
    ensures !StrLess(a, a)
  {
    if a != [] {
      StrLessIrreflexive(a[1..]);
    }
  }

  lemma {:induction false} StrLessTransitive(a: string, b: string, c: string)
    requires StrLess(a, b) && StrLess(b, c)
    ensures StrLess(a, c)
  {
    if a != [] && b != [] && c != [] && a[0] == b[0] && b[0] == c[0] {
      StrLessTransitive(a[1..], b[1..], c[1..]);
    }
  }

  /** Distinct strings are ordered one way or the other. */
  lemma {:induction false} StrLessTotal(a: string, b: string)
    requires a != b
    ensures StrLess(a, b) || StrLess(b, a)
  {
    if a != [] && b != [] && a[0] == b[0] {
      assert a == [a[0]] + a[1..] && b == [b[0]] + b[1..];
      StrLessTotal(a[1..], b[1..]);
    }
  }

  /** Strings that share a prefix compare as their remainders do. */
  lemma {:induction false} StrLessCommonPrefix(pre: string, a: string, b: string)
    ensures StrLess(pre + a, pre + b) == StrLess(a, b)
  {
    if pre == [] {
      assert pre + a == a && pre + b == b;
    } else {
      var x, y := pre + a, pre + b;
      assert x != [] && y != [] && x[0] == y[0];
      assert x[1..] == pre[1..] + a && y[1..] == pre[1..] + b;
      assert StrLess(x, y) == StrLess(x[1..], y[1..]);
      StrLessCommonPrefix(pre[1..], a, b);
    }
  }

  lemma StrLessAsymmetric(a: string, b: string)
    requires StrLess(a, b)
    ensures !StrLess(b, a)
  {
    if StrLess(b, a) {
      StrLessTransitive(a, b, a);
      StrLessIrreflexive(a);
    }
  }

  /** One entry of the list being sorted: the tuple `(score, path)`. */
  datatype Scored = Scored(score: real, path: Path)

  /** `x` comes strictly before `y` in `sorted(..., reverse=True)`: the tuple
      `x` is greater, by score and then by path. */
  predicate Before(x: Scored, y: Scored)
  {
    x.score > y.score || (x.score == y.score && StrLess(y.path, x.path))
  }

  lemma BeforeTransitive(x: Scored, y: Scored, z: Scored)
    requires Before(x, y) && Before(y, z)
    ensures Before(x, z)
  {
    if x.score == y.score == z.score {
      StrLessTransitive(z.path, y.path, x.path);
    }
  }

  lemma BeforeTotal(x: Scored, y: Scored)
    requires x != y
    ensures Before(x, y) || Before(y, x)
  {
    if x.score == y.score {
      StrLessTotal(x.path, y.path);
    }
  }

  lemma BeforeAsymmetric(x: Scored, y: Scored)
    requires Before(x, y)
    ensures !Before(y, x) && x != y
  {
    if x.score == y.score {
      if StrLess(x.path, y.path) {
        StrLessTransitive(x.path, y.path, x.path);
      }
      StrLessIrreflexive(x.path);
    }
  }

  /** Sorted for `reverse=True`: no entry comes before an earlier one. */
  predicate Descending(s: seq<Scored>)
  {
    forall i, j :: 0 <= i < j < |s| ==> !Before(s[j], s[i])
  }

  /** `x` never comes before itself. */
  lemma BeforeIrreflexive(x: Scored)
    ensures !Before(x, x)
  {
    StrLessIrreflexive(x.path);
  }

  /** Entries neither of which comes before the other are the same tuple. */
  lemma NeitherBeforeEqual(x: Scored, y: Scored)
    requires !Before(x, y) && !Before(y, x)
    ensures x == y
  {
    if x != y {
      BeforeTotal(x, y);
    }
  }

  /** Insert `x` into a descending list, after every entry that comes before
      it. */
  function Insert(x: Scored, s: seq<Scored>): (r: seq<Scored>)
    ensures multiset(r) == multiset(s) + multiset{x}
  {
    if s == [] then [x]
    else if !Before(s[0], x) then [x] + s
    else
      assert s == [s[0]] + s[1..];
      [s[0]] + Insert(x, s[1..])
  }

  /** A head that no later entry comes before extends a descending list. */
  lemma DescendingCons(x: Scored, s: seq<Scored>)
    requires Descending(s)
    requires forall y :: y in s ==> !Before(y, x)
    ensures Descending([x] + s)
  {
    var r := [x] + s;
    forall i, j | 0 <= i < j < |r|
      ensures !Before(r[j], r[i])
    {
      if i > 0 {
        assert r[i] == s[i - 1] && r[j] == s[j - 1];
      } else {
        assert r[j] in s;
      }
    }
  }

  /** If `a` comes before `b` but not before `c`, then `b` does not come
      before `c`. */
  lemma BeforeBound(a: Scored, b: Scored, c: Scored)
    requires Before(a, b) && !Before(a, c)
    ensures !Before(b, c)
  {
    if Before(b, c) {
      BeforeTransitive(a, b, c);
    }
  }

  lemma {:induction false} InsertDescending(x: Scored, s: seq<Scored>)
    requires Descending(s)
    ensures Descending(Insert(x, s))
  {
    if s == [] {
    } else if !Before(s[0], x) {
      forall y | y in s
        ensures !Before(y, x)
      {
        var j :| 0 <= j < |s| && s[j] == y;
        if y != s[0] {
          BeforeTotal(y, s[0]);
          BeforeBound(s[0], y, x);
        }
      }
      DescendingCons(x, s);
    } else {
      var rest := Insert(x, s[1..]);
      InsertDescending(x, s[1..]);
      forall y | y in rest
        ensures !Before(y, s[0])
      {
        assert y in multiset(rest);
        if y == x {
          BeforeAsymmetric(s[0], x);
        } else {
          assert y in multiset(s[1..]);
          var j :| 0 <= j < |s[1..]| && s[1..][j] == y;
          assert s[j + 1] == y;
        }
      }
      DescendingCons(s[0], rest);
    }
  }

  /** Python's `sorted(s, reverse=True)` on `(score, path)` tuples. */
  function SortDescending(s: seq<Scored>): (r: seq<Scored>)
    ensures multiset(r) == multiset(s)
  {
    if s == [] then []
    else
      assert s == [s[0]] + s[1..];
      Insert(s[0], SortDescending(s[1..]))
  }

  /** The sort is a descending permutation of its input. */
  lemma {:induction false} SortDescendingSorts(s: seq<Scored>)
    ensures Descending(SortDescending(s))
    ensures multiset(SortDescending(s)) == multiset(s)
  {
    if s != [] {
      SortDescendingSorts(s[1..]);
      InsertDescending(s[0], SortDescending(s[1..]));
    }
  }

  /** The head of a descending list is not preceded by anything in it. */
  lemma HeadNotPreceded(a: seq<Scored>, y: Scored)
    requires Descending(a) && a != [] && y in a
    ensures !Before(y, a[0])
  {
    var j :| 0 <= j < |a| && a[j] == y;
    if j == 0 {
      BeforeIrreflexive(y);
    }
  }

  lemma DescendingTail(a: seq<Scored>)
    requires Descending(a) && a != []
    ensures Descending(a[1..])
  {
    forall i, j | 0 <= i < j < |a| - 1
      ensures !Before(a[1..][j], a[1..][i])
    {
      assert a[1..][j] == a[j + 1] && a[1..][i] == a[i + 1];
    }
  }

  /** A descending arrangement of a multiset is unique, because equal tuples are
      identical: any stable sort (Python's included) gives `SortDescending`. */
  lemma {:induction false} DescendingUnique(a: seq<Scored>, b: seq<Scored>)
    requires Descending(a) && Descending(b) && multiset(a) == multiset(b)
    ensures a == b
    decreases |a|
  {
    assert |a| == |multiset(a)| == |multiset(b)| == |b|;
    if a != [] {
      assert a[0] in multiset(b) && b[0] in multiset(a);
      HeadNotPreceded(a, b[0]);
      HeadNotPreceded(b, a[0]);
      NeitherBeforeEqual(a[0], b[0]);
      SameHeadSameTail(a, b);
      DescendingTail(a);
      DescendingTail(b);
      DescendingUnique(a[1..], b[1..]);
    }
  }

  /** Equal multisets with equal heads have equal tails. */
  lemma SameHeadSameTail(a: seq<Scored>, b: seq<Scored>)
    requires a != [] && b != [] && a[0] == b[0] && multiset(a) == multiset(b)
    ensures multiset(a[1..]) == multiset(b[1..])
  {
    assert a == [a[0]] + a[1..] && b == [b[0]] + b[1..];
    assert multiset(a) == multiset{a[0]} + multiset(a[1..]);
    assert multiset(b) == multiset{b[0]} + multiset(b[1..]);
    assert multiset(a[1..]) == multiset(a) - multiset{a[0]};
    assert multiset(b[1..]) == multiset(b) - multiset{b[0]};
  }

  /** The head of the sorted list is the greatest entry: every other entry
      has a lower score, or the same score and a smaller path. */
  lemma HeadIsGreatest(s: seq<Scored>, x: Scored)
    requires x in s
    ensures var r := SortDescending(s);
      |r| > 0 && r[0] in s && (x == r[0] || Before(r[0], x))
  {
    var r := SortDescending(s);
    SortDescendingSorts(s);
    assert x in multiset(r);
    assert r[0] in multiset(s);
    HeadNotPreceded(r, x);
    if x != r[0] {
      BeforeTotal(x, r[0]);
    }
  }
}
