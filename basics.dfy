/** Shared vocabulary of the deduplication engine: paths, optional values and
    facts about sequences that several components rely on. */
module Basics {

  /** A file-system path, as the Python code handles it: a plain string. */
  type Path = string

  /** An embedding vector. The engine never looks inside one; only the
      similarity oracle of the grouping step reads it. */
  type Embedding = seq<real>

  datatype Option<T> = None | Some(value: T)

  /** No element occurs twice. */
  predicate Distinct<T(==)>(s: seq<T>)
  {
    forall i, j :: 0 <= i < j < |s| ==> s[i] != s[j]
  }

  /** The elements of a sequence, as a set. */
  function Elems(s: seq<Path>): (r: set<Path>)
    ensures forall x :: x in r <==> x in s
  {
    set x | x in s
  }

  /** `a` can be obtained from `b` by deleting elements: the elements of `a`
      occur in `b` in the same relative order. Matched from the back, which
      suits sequences that grow at their end. */
  predicate Subsequence<T(==)>(a: seq<T>, b: seq<T>)
    decreases |b|
  {
    if a == [] then true
    else if b == [] then false
    else if a[|a| - 1] == b[|b| - 1] then Subsequence(a[..|a| - 1], b[..|b| - 1])
    else Subsequence(a, b[..|b| - 1])
  }

  /** Every element of a subsequence occurs in the longer sequence. */
  lemma {:induction false} SubsequenceElements<T>(a: seq<T>, b: seq<T>)
    requires Subsequence(a, b)
    ensures forall x :: x in a ==> x in b
    decreases |b|
  {
    if a != [] {
      var a', b' := a[..|a| - 1], b[..|b| - 1];
      assert b == b' + [b[|b| - 1]];
      if a[|a| - 1] == b[|b| - 1] {
        SubsequenceElements(a', b');
        assert a == a' + [a[|a| - 1]];
      } else {
        SubsequenceElements(a, b');
      }
    }
  }

  /** Appending an element to the longer sequence keeps a subsequence one. */
  lemma {:induction false} SubsequenceExtend<T>(a: seq<T>, b: seq<T>, x: T)
    requires Subsequence(a, b)
    ensures Subsequence(a, b + [x])
    decreases |b|, 1
  {
    var b' := b + [x];
    assert b'[..|b'| - 1] == b;
    if a != [] && a[|a| - 1] == x {
      SubsequenceDropLast(a, b);
    }
  }

  /** Dropping the last element of a subsequence keeps it a subsequence. */
  lemma {:induction false} SubsequenceDropLast<T>(a: seq<T>, b: seq<T>)
    requires a != [] && Subsequence(a, b)
    ensures Subsequence(a[..|a| - 1], b)
    decreases |b|, 0
  {
    var a', b' := a[..|a| - 1], b[..|b| - 1];
    assert b == b' + [b[|b| - 1]];
    if a[|a| - 1] == b[|b| - 1] {
      SubsequenceExtend(a', b', b[|b| - 1]);
    } else {
      SubsequenceDropLast(a, b');
      SubsequenceExtend(a', b', b[|b| - 1]);
    }
  }

  /** A sequence without repeats holds each value at most once. */
  lemma {:induction false} DistinctAtMostOnce<T>(a: seq<T>, x: T)
    requires Distinct(a)
    ensures multiset(a)[x] <= 1
  {
    if a != [] {
      assert a == [a[0]] + a[1..];
      assert Distinct(a[1..]) by {
        forall i, j | 0 <= i < j < |a| - 1
          ensures a[1..][i] != a[1..][j]
        {
          assert a[1..][i] == a[i + 1] && a[1..][j] == a[j + 1];
        }
      }
      DistinctAtMostOnce(a[1..], x);
      assert a[0] !in a[1..];
    }
  }

  /** A value at two positions is counted twice. */
  lemma RepeatCountsTwice<T>(b: seq<T>, i: nat, j: nat)
    requires i < j < |b|
    ensures b[i] == b[j] ==> multiset(b)[b[i]] >= 2
  {
    assert b == b[..j] + b[j..];
    assert b[i] in b[..j] && b[j] in b[j..];
    assert multiset(b) == multiset(b[..j]) + multiset(b[j..]);
  }

  /** Appending the same element to both keeps a subsequence. */
  lemma SubsequenceAppendBoth<T>(a: seq<T>, b: seq<T>, x: T)
    requires Subsequence(a, b)
    ensures Subsequence(a + [x], b + [x])
  {
    assert (a + [x])[..|a|] == a && (b + [x])[..|b|] == b;
  }

  /** A permutation of a sequence without repeats has none either. */
  lemma DistinctPermutation<T>(a: seq<T>, b: seq<T>)
    requires multiset(a) == multiset(b) && Distinct(a)
    ensures Distinct(b)
  {
    forall i, j | 0 <= i < j < |b|
      ensures b[i] != b[j]
    {
      DistinctAtMostOnce(a, b[i]);
      RepeatCountsTwice(b, i, j);
    }
  }

  /** A subsequence of a sequence without repeats has none either. */
  lemma {:induction false} SubsequenceDistinct<T>(a: seq<T>, b: seq<T>)
    requires Subsequence(a, b) && Distinct(b)
    ensures Distinct(a)
    decreases |b|
  {
    if a != [] {
      var a', b' := a[..|a| - 1], b[..|b| - 1];
      assert Distinct(b');
      if a[|a| - 1] == b[|b| - 1] {
        SubsequenceDistinct(a', b');
        SubsequenceElements(a', b');
        assert a == a' + [a[|a| - 1]];
        assert b == b' + [b[|b| - 1]];
        assert b[|b| - 1] !in b';
      } else {
        SubsequenceDistinct(a, b');
      }
    }
  }

  /** The sequences of `ss` one after the other. */
  function Concat<T>(ss: seq<seq<T>>): seq<T>
  {
    if ss == [] then [] else Concat(ss[..|ss| - 1]) + ss[|ss| - 1]
  }

  /** Concatenating one more sequence appends it. */
  lemma ConcatSnoc<T>(ss: seq<seq<T>>, n: nat)
    requires n < |ss|
    ensures Concat(ss[..n + 1]) == Concat(ss[..n]) + ss[n]
  {
    assert ss[..n + 1][..n] == ss[..n];
  }

  /** An element of the concatenation is an element of one of the parts, and
      every element of a part is in the concatenation. */
  lemma {:induction false} ConcatMembership<T>(ss: seq<seq<T>>, x: T)
    ensures x in Concat(ss) <==> exists i :: 0 <= i < |ss| && x in ss[i]
  {
    if ss != [] {
      var init := ss[..|ss| - 1];
      ConcatMembership(init, x);
      if exists i :: 0 <= i < |ss| && x in ss[i] {
        var i :| 0 <= i < |ss| && x in ss[i];
        if i < |ss| - 1 {
          assert x in init[i];
        }
      }
      if exists i :: 0 <= i < |init| && x in init[i] {
        var i :| 0 <= i < |init| && x in init[i];
        assert x in ss[i];
      }
    }
  }

  /** Empty parts concatenate to nothing. */
  lemma {:induction false} ConcatEmpties<T>(ss: seq<seq<T>>)
    requires forall i :: 0 <= i < |ss| ==> ss[i] == []
    ensures Concat(ss) == []
  {
    if ss != [] {
      ConcatEmpties(ss[..|ss| - 1]);
    }
  }

  /** No two elements share a key. */
  predicate DistinctBy<T, K(==)>(s: seq<T>, key: T -> K)
  {
    forall i, j :: 0 <= i < j < |s| ==> key(s[i]) != key(s[j])
  }

  /** Parts whose keys are distinct within each part and across parts
      concatenate to a sequence with distinct keys. */
  lemma {:induction false} ConcatDistinctBy<T, K>(ss: seq<seq<T>>, key: T -> K)
    requires forall i :: 0 <= i < |ss| ==> DistinctBy(ss[i], key)
    requires forall i, j, x, y :: 0 <= i < j < |ss| && x in ss[i] && y in ss[j] ==> key(x) != key(y)
    ensures DistinctBy(Concat(ss), key)
  {
    if ss != [] {
      var init, last := ss[..|ss| - 1], ss[|ss| - 1];
      ConcatDistinctBy(init, key);
      var c := Concat(init);
      var r := c + last;
      assert Concat(ss) == r;
      forall i, j | 0 <= i < j < |r|
        ensures key(r[i]) != key(r[j])
      {
        if i < |c| && j >= |c| {
          ConcatMembership(init, c[i]);
          var m :| 0 <= m < |init| && c[i] in init[m];
          assert r[i] in ss[m] && r[j] in ss[|ss| - 1];
        } else if i >= |c| {
          assert r[i] == last[i - |c|] && r[j] == last[j - |c|];
        }
      }
    }
  }
}

/** Python's `dict` with `str` keys, which iterates in insertion order. */
module OrderedDicts {
  import opened Basics

  /** `keys` is the insertion order, `entries` the key-to-value mapping. */
  datatype Dict<V> = Dict(keys: seq<Path>, entries: map<Path, V>)
  {
    /** The keys are listed once each, and exactly the mapped keys are listed. */
    ghost predicate Valid()
    {
      Distinct(keys) && forall k :: k in entries <==> k in keys
    }

    /** `d[k] = v`: a new key goes to the end of the order, an existing key
        keeps its place and takes the new value. */
    function Put(k: Path, v: V): (r: Dict<V>)
      requires Valid()
      ensures r.Valid()
      ensures r.entries == entries[k := v]
      ensures r.keys == if k in entries then keys else keys + [k]
    {
      if k in entries then Dict(keys, entries[k := v]) else Dict(keys + [k], entries[k := v])
    }
  }

  function Empty<V>(): (r: Dict<V>)
    ensures r.Valid() && r.keys == []
  {
    Dict([], map[])
  }
}
