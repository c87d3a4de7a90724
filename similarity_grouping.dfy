/** `find_duplicates` (main.py): greedy grouping of videos by embedding
    similarity. Each path not yet claimed becomes a seed and claims every other
    unclaimed path whose similarity to it exceeds the threshold; the seed itself
    is never marked as claimed. The similarity is an oracle on embeddings
    (the cosine similarity torch computes). */
module SimilarityGrouping {
  import opened Basics
  import opened OrderedDicts

  /** `float(cosine_similarity(tensor(e1), tensor(e2), dim=0))`. */
  type Similarity = (Embedding, Embedding) -> real

  /** `sim > similarity_threshold` for two paths of the embedding dict. */
  predicate Close(d: Dict<Embedding>, sim: Similarity, threshold: real, a: Path, b: Path)
  {
    a in d.entries && b in d.entries && sim(d.entries[a], d.entries[b]) > threshold
  }

  /** The similarity gives the same value whichever way round two embeddings
      of the dict are passed. */
  predicate Symmetric(d: Dict<Embedding>, sim: Similarity)
  {
    forall a, b :: a in d.entries && b in d.entries ==>
      sim(d.entries[a], d.entries[b]) == sim(d.entries[b], d.entries[a])
  }

  /** The paths of `ks` that the inner loop appends to `seed`'s group, in
      order: those not claimed before this seed's pass, other than the seed,
      and close to it. */
  function Claimed(d: Dict<Embedding>, ks: seq<Path>, sim: Similarity, threshold: real,
                   seed: Path, processed: set<Path>): seq<Path>
  {
    if ks == [] then []
    else
      var ks', q := ks[..|ks| - 1], ks[|ks| - 1];
      assert ks == ks' + [q];
      var rest := Claimed(d, ks', sim, threshold, seed, processed);
      if q !in processed && q != seed && Close(d, sim, threshold, seed, q) then rest + [q]
      else rest
  }

  /** The claimed paths are exactly the paths of `ks` that were not claimed
      before, are not the seed and are close to it. */
  lemma {:induction false} ClaimedMembers(d: Dict<Embedding>, ks: seq<Path>, sim: Similarity, threshold: real,
                                         seed: Path, processed: set<Path>)
    ensures forall q :: q in Claimed(d, ks, sim, threshold, seed, processed) <==>
      q in ks && q !in processed && q != seed && Close(d, sim, threshold, seed, q)
  {
    if ks != [] {
      var ks', q := ks[..|ks| - 1], ks[|ks| - 1];
      assert ks == ks' + [q];
      ClaimedMembers(d, ks', sim, threshold, seed, processed);
    }
  }

  /** The claimed paths keep the order of `ks`. */
  lemma {:induction false} ClaimedInOrder(d: Dict<Embedding>, ks: seq<Path>, sim: Similarity, threshold: real,
                                         seed: Path, processed: set<Path>)
    ensures Subsequence(Claimed(d, ks, sim, threshold, seed, processed), ks)
  {
    if ks != [] {
      var ks', q := ks[..|ks| - 1], ks[|ks| - 1];
      assert ks == ks' + [q];
      var rest := Claimed(d, ks', sim, threshold, seed, processed);
      ClaimedInOrder(d, ks', sim, threshold, seed, processed);
      if q !in processed && q != seed && Close(d, sim, threshold, seed, q) {
        SubsequenceAppendBoth(rest, ks', q);
      } else {
        SubsequenceExtend(rest, ks', q);
      }
    }
  }

  /** The state of the outer loop: `groups` and the set `processed`. */
  datatype Grouping = Grouping(groups: Dict<seq<Path>>, processed: set<Path>)

  /** One pass of the outer loop at path `p`: skipped if `p` was claimed,
      otherwise `p` becomes a seed with the group `[p] + claimed` and the
      claimed paths join `processed`. */
  function Step(d: Dict<Embedding>, sim: Similarity, threshold: real, g: Grouping, p: Path): (g': Grouping)
    requires d.Valid() && g.groups.Valid() && p in d.entries
    ensures g'.groups.Valid()
  {
    if p in g.processed then g
    else
      var m := Claimed(d, d.keys, sim, threshold, p, g.processed);
      ClaimedMembers(d, d.keys, sim, threshold, p, g.processed);
      Grouping(g.groups.Put(p, [p] + m), g.processed + Elems(m))
  }

  /** The state after the outer loop has visited the first `n` paths, in the
      dict's insertion order. */
  function Run(d: Dict<Embedding>, sim: Similarity, threshold: real, n: nat): (g: Grouping)
    requires d.Valid() && n <= |d.keys|
    ensures g.groups.Valid()
  {
    if n == 0 then Grouping(Empty(), {})
    else Step(d, sim, threshold, Run(d, sim, threshold, n - 1), d.keys[n - 1])
  }

  /** The dict `find_duplicates` returns. */
  function Groups(d: Dict<Embedding>, threshold: real, sim: Similarity): Dict<seq<Path>>
    requires d.Valid()
  {
    Run(d, sim, threshold, |d.keys|).groups
  }

  /** `find_duplicates` itself: the outer loop over the dict. */
  method FindDuplicates(embeddings: Dict<Embedding>, threshold: real, sim: Similarity)
    returns (groups: Dict<seq<Path>>)
    requires embeddings.Valid()
    ensures groups == Groups(embeddings, threshold, sim)
  {
    var keys := embeddings.keys;
    groups := Empty();
    var processed: set<Path> := {};
    for n := 0 to |keys|
      invariant Grouping(groups, processed) == Run(embeddings, sim, threshold, n)
    {
      var path1 := keys[n];
      if path1 !in processed {
        var group;
        group, processed := ClaimFor(embeddings, threshold, sim, path1, processed);
        groups := groups.Put(path1, group);
      }
    }
    assert keys[..|keys|] == keys;
  }

  /** The inner loop of `find_duplicates` for the seed `path1`: the group it
      builds and the `processed` set after it. */
  method ClaimFor(embeddings: Dict<Embedding>, threshold: real, sim: Similarity, path1: Path, processed0: set<Path>)
    returns (group: seq<Path>, processed: set<Path>)
    requires embeddings.Valid() && path1 in embeddings.entries
    ensures var claimed := Claimed(embeddings, embeddings.keys, sim, threshold, path1, processed0);
      group == [path1] + claimed && processed == processed0 + Elems(claimed)
  {
    var keys := embeddings.keys;
    var emb1 := embeddings.entries[path1];
    group := [path1];
    processed := processed0;
    ghost var claimed: seq<Path> := [];
    for j := 0 to |keys|
      invariant claimed == Claimed(embeddings, keys[..j], sim, threshold, path1, processed0)
      invariant group == [path1] + claimed
      invariant processed == processed0 + Elems(claimed)
    {
      var path2 := keys[j];
      ClaimedStep(embeddings, j, sim, threshold, path1, processed0, group, processed);
      if path2 !in processed && path2 != path1 {
        var emb2 := embeddings.entries[path2];
        if sim(emb1, emb2) > threshold {
          group := group + [path2];
          processed := processed + {path2};
          claimed := claimed + [path2];
        }
      }
    }
    assert keys[..|keys|] == keys;
  }

  /** One more path seen by the inner loop: it is appended to the group, and
      added to `processed`, when it is unclaimed, not the seed and close to the
      seed. */
  lemma ClaimedStep(d: Dict<Embedding>, j: nat, sim: Similarity, threshold: real, seed: Path,
                    processed0: set<Path>, group: seq<Path>, processed: set<Path>)
    requires d.Valid() && seed in d.entries && j < |d.keys|
    requires var before := Claimed(d, d.keys[..j], sim, threshold, seed, processed0);
      group == [seed] + before && processed == processed0 + Elems(before)
    ensures var q := d.keys[j];
      var before := Claimed(d, d.keys[..j], sim, threshold, seed, processed0);
      var after := Claimed(d, d.keys[..j + 1], sim, threshold, seed, processed0);
      if q !in processed && q != seed && sim(d.entries[seed], d.entries[q]) > threshold then
        after == before + [q] && group + [q] == [seed] + after && processed + {q} == processed0 + Elems(after)
      else
        after == before
  {
    var q := d.keys[j];
    var before := Claimed(d, d.keys[..j], sim, threshold, seed, processed0);
    assert d.keys[..j + 1] == d.keys[..j] + [q];
    assert q !in d.keys[..j];
    ClaimedMembers(d, d.keys[..j], sim, threshold, seed, processed0);
    assert q !in before;
    assert q in processed <==> q in processed0;
    assert Elems(before + [q]) == Elems(before) + {q};
    assert group + [q] == [seed] + (before + [q]);
  }

  /** A group without its seed: the paths the seed claimed. */
  function Tail(group: seq<Path>): seq<Path>
  {
    if group == [] then [] else group[1..]
  }

  /** A group as `find_duplicates` builds it: its seed first, then paths of
      the dict in insertion order, none of them the seed, each close to the
      seed (not necessarily to one another). */
  predicate WellShaped(d: Dict<Embedding>, sim: Similarity, threshold: real, s: Path, group: seq<Path>)
  {
    && s in d.entries
    && |group| >= 1 && group[0] == s
    && Subsequence(Tail(group), d.keys)
    && s !in Tail(group)
    && forall q :: q in Tail(group) ==> Close(d, sim, threshold, s, q)
  }

  predicate AllWellShaped(d: Dict<Embedding>, sim: Similarity, threshold: real, g: Grouping)
  {
    forall s :: s in g.groups.entries ==> WellShaped(d, sim, threshold, s, g.groups.entries[s])
  }

  /** The seeds are among the paths visited. */
  predicate SeedsAmong(g: Grouping, visited: seq<Path>)
  {
    forall s :: s in g.groups.entries ==> s in visited
  }

  /** `processed` is exactly the set of paths in the groups' tails. */
  ghost predicate ProcessedIsTails(g: Grouping)
  {
    forall q :: q in g.processed <==> exists s :: s in g.groups.entries && q in Tail(g.groups.entries[s])
  }

  /** Every visited path is a seed or has been claimed. */
  predicate Covers(g: Grouping, visited: seq<Path>)
  {
    forall k :: k in visited ==> k in g.groups.entries || k in g.processed
  }

  /** Every seed's pass left every other path close to it claimed. */
  ghost predicate ClaimsAllClose(d: Dict<Embedding>, sim: Similarity, threshold: real, g: Grouping)
  {
    forall s, k :: s in g.groups.entries && k != s && Close(d, sim, threshold, s, k) ==> k in g.processed
  }

  /** No path is in the tails of two different groups. */
  predicate TailsDisjoint(g: Grouping)
  {
    forall s1, s2, q ::
      (s1 in g.groups.entries && s2 in g.groups.entries &&
       q in Tail(g.groups.entries[s1]) && q in Tail(g.groups.entries[s2])) ==> s1 == s2
  }

  /** No seed has been claimed. */
  predicate SeedsUnclaimed(g: Grouping)
  {
    forall s :: s in g.groups.entries ==> s !in g.processed
  }

  /** The path visited at step `n` occurs nowhere earlier in the dict. */
  lemma KeyNotEarlier(d: Dict<Embedding>, n: nat)
    requires d.Valid() && 0 < n <= |d.keys|
    ensures d.keys[n - 1] !in d.keys[..n - 1]
    ensures d.keys[..n] == d.keys[..n - 1] + [d.keys[n - 1]]
  {
  }

  /** Each visit keeps every group well shaped. */
  lemma StepWellShaped(d: Dict<Embedding>, sim: Similarity, threshold: real, n: nat)
    requires d.Valid() && 0 < n <= |d.keys|
    requires AllWellShaped(d, sim, threshold, Run(d, sim, threshold, n - 1))
    ensures AllWellShaped(d, sim, threshold, Run(d, sim, threshold, n))
  {
    var g, p := Run(d, sim, threshold, n - 1), d.keys[n - 1];
    if p !in g.processed {
      var m := Claimed(d, d.keys, sim, threshold, p, g.processed);
      ClaimedMembers(d, d.keys, sim, threshold, p, g.processed);
      ClaimedInOrder(d, d.keys, sim, threshold, p, g.processed);
      assert Tail([p] + m) == m;
    }
  }

  /** A visit adds no seed other than the visited path. */
  lemma StepSeedsAmong(d: Dict<Embedding>, sim: Similarity, threshold: real, n: nat)
    requires d.Valid() && 0 < n <= |d.keys|
    requires SeedsAmong(Run(d, sim, threshold, n - 1), d.keys[..n - 1])
    ensures SeedsAmong(Run(d, sim, threshold, n), d.keys[..n])
  {
    KeyNotEarlier(d, n);
  }

  /** A visit that makes a seed adds exactly its claimed paths to both
      `processed` and the tails. */
  lemma StepProcessedIsTails(d: Dict<Embedding>, sim: Similarity, threshold: real, n: nat)
    requires d.Valid() && 0 < n <= |d.keys|
    requires ProcessedIsTails(Run(d, sim, threshold, n - 1))
    ensures ProcessedIsTails(Run(d, sim, threshold, n))
  {
    var g, p := Run(d, sim, threshold, n - 1), d.keys[n - 1];
    RunFresh(d, sim, threshold, n);
    if p !in g.processed {
      var m := Claimed(d, d.keys, sim, threshold, p, g.processed);
      ClaimedMembers(d, d.keys, sim, threshold, p, g.processed);
      var g' := Step(d, sim, threshold, g, p);
      var e, e' := g.groups.entries, g'.groups.entries;
      assert e' == e[p := [p] + m];
      assert Tail([p] + m) == m;
      forall q | q in g'.processed
        ensures exists s :: s in e' && q in Tail(e'[s])
      {
        if q in g.processed {
          var s :| s in e && q in Tail(e[s]);
          assert e'[s] == e[s];
        } else {
          assert q in Tail(e'[p]);
        }
      }
      forall q, s | s in e' && q in Tail(e'[s])
        ensures q in g'.processed
      {
        if s != p {
          assert e'[s] == e[s];
        }
      }
    }
  }

  /** The visited path becomes a seed or was claimed. */
  lemma StepCovers(d: Dict<Embedding>, sim: Similarity, threshold: real, n: nat)
    requires d.Valid() && 0 < n <= |d.keys|
    requires Covers(Run(d, sim, threshold, n - 1), d.keys[..n - 1])
    ensures Covers(Run(d, sim, threshold, n), d.keys[..n])
  {
    KeyNotEarlier(d, n);
  }

  /** A new seed claims every unclaimed path close to it. */
  lemma StepClaimsAllClose(d: Dict<Embedding>, sim: Similarity, threshold: real, n: nat)
    requires d.Valid() && 0 < n <= |d.keys|
    requires ClaimsAllClose(d, sim, threshold, Run(d, sim, threshold, n - 1))
    ensures ClaimsAllClose(d, sim, threshold, Run(d, sim, threshold, n))
  {
    var g, p := Run(d, sim, threshold, n - 1), d.keys[n - 1];
    ClaimedMembers(d, d.keys, sim, threshold, p, g.processed);
  }

  /** A new seed claims only paths no earlier seed claimed. */
  lemma StepTailsDisjoint(d: Dict<Embedding>, sim: Similarity, threshold: real, n: nat)
    requires d.Valid() && 0 < n <= |d.keys|
    requires TailsDisjoint(Run(d, sim, threshold, n - 1)) && ProcessedIsTails(Run(d, sim, threshold, n - 1))
    ensures TailsDisjoint(Run(d, sim, threshold, n))
  {
    var g, p := Run(d, sim, threshold, n - 1), d.keys[n - 1];
    RunFresh(d, sim, threshold, n);
    if p !in g.processed {
      var m := Claimed(d, d.keys, sim, threshold, p, g.processed);
      ClaimedMembers(d, d.keys, sim, threshold, p, g.processed);
      var e, e' := g.groups.entries, Step(d, sim, threshold, g, p).groups.entries;
      assert e' == e[p := [p] + m];
      assert Tail([p] + m) == m;
      assert forall s :: s in e ==> e'[s] == e[s];
      assert forall s, q :: s in e && q in Tail(e[s]) ==> q in g.processed;
    }
  }

  /** With a symmetric similarity a new seed claims no earlier seed: an
      earlier seed close to it would have claimed it. */
  lemma StepSeedsUnclaimed(d: Dict<Embedding>, sim: Similarity, threshold: real, n: nat)
    requires d.Valid() && 0 < n <= |d.keys| && Symmetric(d, sim)
    requires SeedsUnclaimed(Run(d, sim, threshold, n - 1))
    requires ClaimsAllClose(d, sim, threshold, Run(d, sim, threshold, n - 1))
    ensures SeedsUnclaimed(Run(d, sim, threshold, n))
  {
    var g, p := Run(d, sim, threshold, n - 1), d.keys[n - 1];
    if p !in g.processed {
      var m := Claimed(d, d.keys, sim, threshold, p, g.processed);
      ClaimedMembers(d, d.keys, sim, threshold, p, g.processed);
      forall s | s in g.groups.entries
        ensures s !in m
      {
        if s != p && s in d.entries {
          assert sim(d.entries[p], d.entries[s]) == sim(d.entries[s], d.entries[p]);
        }
      }
    }
  }

  /** The seeds are among the paths visited so far. */
  lemma {:induction false} RunSeedsAmong(d: Dict<Embedding>, sim: Similarity, threshold: real, n: nat)
    requires d.Valid() && n <= |d.keys|
    ensures SeedsAmong(Run(d, sim, threshold, n), d.keys[..n])
  {
    if n > 0 {
      RunSeedsAmong(d, sim, threshold, n - 1);
      StepSeedsAmong(d, sim, threshold, n);
    }
  }

  /** The path visited at step `n` is not yet a seed: the dict's keys are
      distinct. */
  lemma RunFresh(d: Dict<Embedding>, sim: Similarity, threshold: real, n: nat)
    requires d.Valid() && 0 < n <= |d.keys|
    ensures d.keys[n - 1] !in Run(d, sim, threshold, n - 1).groups.entries
  {
    RunSeedsAmong(d, sim, threshold, n - 1);
    KeyNotEarlier(d, n);
  }

  lemma {:induction false} RunWellShaped(d: Dict<Embedding>, sim: Similarity, threshold: real, n: nat)
    requires d.Valid() && n <= |d.keys|
    ensures AllWellShaped(d, sim, threshold, Run(d, sim, threshold, n))
  {
    if n > 0 {
      RunWellShaped(d, sim, threshold, n - 1);
      StepWellShaped(d, sim, threshold, n);
    }
  }

  lemma {:induction false} RunProcessedIsTails(d: Dict<Embedding>, sim: Similarity, threshold: real, n: nat)
    requires d.Valid() && n <= |d.keys|
    ensures ProcessedIsTails(Run(d, sim, threshold, n))
  {
    if n > 0 {
      RunProcessedIsTails(d, sim, threshold, n - 1);
      StepProcessedIsTails(d, sim, threshold, n);
    }
  }

  lemma {:induction false} RunCovers(d: Dict<Embedding>, sim: Similarity, threshold: real, n: nat)
    requires d.Valid() && n <= |d.keys|
    ensures Covers(Run(d, sim, threshold, n), d.keys[..n])
  {
    if n > 0 {
      RunCovers(d, sim, threshold, n - 1);
      StepCovers(d, sim, threshold, n);
    }
  }

  lemma {:induction false} RunClaimsAllClose(d: Dict<Embedding>, sim: Similarity, threshold: real, n: nat)
    requires d.Valid() && n <= |d.keys|
    ensures ClaimsAllClose(d, sim, threshold, Run(d, sim, threshold, n))
  {
    if n > 0 {
      RunClaimsAllClose(d, sim, threshold, n - 1);
      StepClaimsAllClose(d, sim, threshold, n);
    }
  }

  lemma {:induction false} RunTailsDisjoint(d: Dict<Embedding>, sim: Similarity, threshold: real, n: nat)
    requires d.Valid() && n <= |d.keys|
    ensures TailsDisjoint(Run(d, sim, threshold, n))
  {
    if n > 0 {
      RunTailsDisjoint(d, sim, threshold, n - 1);
      RunProcessedIsTails(d, sim, threshold, n - 1);
      StepTailsDisjoint(d, sim, threshold, n);
    }
  }

  /** With a symmetric similarity no seed is ever claimed: a later seed close
      to an earlier one would have been claimed in the earlier one's pass. */
  lemma {:induction false} RunSeedsUnclaimed(d: Dict<Embedding>, sim: Similarity, threshold: real, n: nat)
    requires d.Valid() && n <= |d.keys| && Symmetric(d, sim)
    ensures SeedsUnclaimed(Run(d, sim, threshold, n))
  {
    if n > 0 {
      RunSeedsUnclaimed(d, sim, threshold, n - 1);
      RunClaimsAllClose(d, sim, threshold, n - 1);
      StepSeedsUnclaimed(d, sim, threshold, n);
    }
  }

  /** A path that becomes a seed is still outside `processed` after its own
      pass: the inner loop skips `path2 == path1`, so a seed never claims
      itself. */
  lemma SeedNotProcessedAfterItsPass(d: Dict<Embedding>, sim: Similarity, threshold: real, n: nat)
    requires d.Valid() && 0 < n <= |d.keys|
    requires d.keys[n - 1] !in Run(d, sim, threshold, n - 1).processed
    ensures var g := Run(d, sim, threshold, n);
      d.keys[n - 1] in g.groups.entries && d.keys[n - 1] !in g.processed
  {
    var g, p := Run(d, sim, threshold, n - 1), d.keys[n - 1];
    ClaimedMembers(d, d.keys, sim, threshold, p, g.processed);
  }

  /** `processed` only grows from one pass of the outer loop to the next. */
  lemma {:induction false} ProcessedGrows(d: Dict<Embedding>, sim: Similarity, threshold: real, m: nat, n: nat)
    requires d.Valid() && m <= n <= |d.keys|
    ensures Run(d, sim, threshold, m).processed <= Run(d, sim, threshold, n).processed
    decreases n
  {
    if m < n {
      ProcessedGrows(d, sim, threshold, m, n - 1);
    }
  }

  /** A path in `processed` at some point never seeds a group when its turn
      comes later: the outer loop skips it. */
  lemma ProcessedNeverSeeds(d: Dict<Embedding>, sim: Similarity, threshold: real, m: nat, n: nat)
    requires d.Valid() && m < n <= |d.keys|
    requires d.keys[n - 1] in Run(d, sim, threshold, m).processed
    ensures d.keys[n - 1] !in Run(d, sim, threshold, n).groups.entries
  {
    var g, p := Run(d, sim, threshold, n - 1), d.keys[n - 1];
    ProcessedGrows(d, sim, threshold, m, n - 1);
    assert p in g.processed;
    assert Run(d, sim, threshold, n) == g;
    RunFresh(d, sim, threshold, n);
  }

  /** The groups `find_duplicates` returns, whatever the similarity: keyed by
      their seeds, each seed first and then paths close to it in insertion
      order; every path of the dict is a seed or in a group's tail; every path
      close to a seed is in some group's tail; no path is in two tails. */
  lemma GroupsShape(d: Dict<Embedding>, threshold: real, sim: Similarity)
    requires d.Valid()
    ensures var g := Run(d, sim, threshold, |d.keys|);
      && g.groups == Groups(d, threshold, sim)
      && AllWellShaped(d, sim, threshold, g)
      && Covers(g, d.keys)
      && ProcessedIsTails(g)
      && ClaimsAllClose(d, sim, threshold, g)
      && TailsDisjoint(g)
  {
    var n := |d.keys|;
    assert d.keys[..n] == d.keys;
    RunWellShaped(d, sim, threshold, n);
    RunCovers(d, sim, threshold, n);
    RunProcessedIsTails(d, sim, threshold, n);
    RunClaimsAllClose(d, sim, threshold, n);
    RunTailsDisjoint(d, sim, threshold, n);
  }

  /** In a well-formed state a seed or a claimed path is in some group. */
  lemma InSomeGroup(d: Dict<Embedding>, sim: Similarity, threshold: real, g: Grouping, k: Path)
    requires AllWellShaped(d, sim, threshold, g) && ProcessedIsTails(g)
    requires k in g.groups.entries || k in g.processed
    ensures exists s :: s in g.groups.entries && k in g.groups.entries[s]
  {
    var e := g.groups.entries;
    if k in e {
      assert WellShaped(d, sim, threshold, k, e[k]);
      assert e[k][0] in e[k];
    } else {
      var s :| s in e && k in Tail(e[s]);
      assert WellShaped(d, sim, threshold, s, e[s]);
      assert e[s] == [s] + Tail(e[s]);
    }
  }

  /** In a well-formed state with no seed claimed, a path is in one group
      at most. */
  lemma InOneGroup(d: Dict<Embedding>, sim: Similarity, threshold: real, g: Grouping, s1: Path, s2: Path, q: Path)
    requires AllWellShaped(d, sim, threshold, g) && ProcessedIsTails(g)
    requires TailsDisjoint(g) && SeedsUnclaimed(g)
    requires s1 in g.groups.entries && s2 in g.groups.entries
    requires q in g.groups.entries[s1] && q in g.groups.entries[s2]
    ensures s1 == s2
  {
    var e := g.groups.entries;
    assert e[s1] == [s1] + Tail(e[s1]) && e[s2] == [s2] + Tail(e[s2]);
  }

  /** Every path of the dict is in some group: as its seed, or in its tail. */
  lemma EveryPathGrouped(d: Dict<Embedding>, threshold: real, sim: Similarity)
    requires d.Valid()
    ensures var e := Groups(d, threshold, sim).entries;
      forall k :: k in d.entries ==> exists s :: s in e && k in e[s]
  {
    var n := |d.keys|;
    var g := Run(d, sim, threshold, n);
    assert d.keys[..n] == d.keys;
    RunCovers(d, sim, threshold, n);
    RunProcessedIsTails(d, sim, threshold, n);
    RunWellShaped(d, sim, threshold, n);
    forall k | k in d.entries
      ensures exists s :: s in g.groups.entries && k in g.groups.entries[s]
    {
      assert k in d.keys[..n];
      InSomeGroup(d, sim, threshold, g, k);
    }
  }

  /** With a symmetric similarity no path is in two groups. */
  lemma GroupsDisjoint(d: Dict<Embedding>, threshold: real, sim: Similarity)
    requires d.Valid() && Symmetric(d, sim)
    ensures var e := Groups(d, threshold, sim).entries;
      forall s1, s2, q :: s1 in e && s2 in e && q in e[s1] && q in e[s2] ==> s1 == s2
  {
    var n := |d.keys|;
    var g := Run(d, sim, threshold, n);
    var e := g.groups.entries;
    RunWellShaped(d, sim, threshold, n);
    RunProcessedIsTails(d, sim, threshold, n);
    RunTailsDisjoint(d, sim, threshold, n);
    RunSeedsUnclaimed(d, sim, threshold, n);
    forall s1, s2, q | s1 in e && s2 in e && q in e[s1] && q in e[s2]
      ensures s1 == s2
    {
      InOneGroup(d, sim, threshold, g, s1, s2, q);
    }
  }

  /** With a symmetric similarity the groups partition the videos: every path
      is in exactly one group. */
  lemma Partition(d: Dict<Embedding>, threshold: real, sim: Similarity)
    requires d.Valid() && Symmetric(d, sim)
    ensures var e := Groups(d, threshold, sim).entries;
      && (forall k :: k in d.entries ==> exists s :: s in e && k in e[s])
      && (forall s1, s2, q :: s1 in e && s2 in e && q in e[s1] && q in e[s2] ==> s1 == s2)
  {
    EveryPathGrouped(d, threshold, sim);
    GroupsDisjoint(d, threshold, sim);
  }

  /** A well-shaped group lists videos of the dict, each once. */
  lemma WellShapedMembers(d: Dict<Embedding>, sim: Similarity, threshold: real, s: Path, group: seq<Path>)
    requires d.Valid() && WellShaped(d, sim, threshold, s, group)
    ensures Distinct(group) && forall q :: q in group ==> q in d.entries
  {
    var t := Tail(group);
    assert group == [s] + t;
    SubsequenceDistinct(t, d.keys);
    SubsequenceElements(t, d.keys);
    forall i, j | 0 <= i < j < |group|
      ensures group[i] != group[j]
    {
      if i == 0 {
        assert group[j] == t[j - 1];
      } else {
        assert group[i] == t[i - 1] && group[j] == t[j - 1];
      }
    }
  }

  /** Every group lists videos of the dict, each once, whatever the
      similarity. */
  lemma GroupMembers(d: Dict<Embedding>, threshold: real, sim: Similarity)
    requires d.Valid()
    ensures var e := Groups(d, threshold, sim).entries;
      forall s :: s in e ==> Distinct(e[s]) && forall q :: q in e[s] ==> q in d.entries
  {
    var n := |d.keys|;
    var g := Run(d, sim, threshold, n);
    var e := g.groups.entries;
    RunWellShaped(d, sim, threshold, n);
    forall s | s in e
      ensures Distinct(e[s]) && forall q :: q in e[s] ==> q in d.entries
    {
      WellShapedMembers(d, sim, threshold, s, e[s]);
    }
  }

  /** A similarity that only sees `b`'s embedding as close to `a`'s. */
  function OneWay(x: Embedding, y: Embedding): real
  {
    if x == [0.0] && y == [1.0] then 1.0 else 0.0
  }

  /** Two videos `a` and `b`, in that order. */
  function TwoVideos(): (d: Dict<Embedding>)
    ensures d.Valid()
  {
    Dict(["a", "b"], map["a" := [1.0], "b" := [0.0]])
  }

  /** `a`'s pass claims nothing: `b` is not close to `a`. */
  lemma FirstPassOfTwo()
    ensures Run(TwoVideos(), OneWay, 0.95, 1) == Grouping(Dict(["a"], map["a" := ["a"]]), {})
  {
    var d := TwoVideos();
    assert d.keys[..1] == ["a"] && d.keys[..0] == [];
    assert !Close(d, OneWay, 0.95, "a", "b");
    assert Claimed(d, d.keys, OneWay, 0.95, "a", {}) == [];
    assert ["a"] + [] == ["a"];
  }

  /** `b`'s pass claims `a`, which no earlier pass claimed. */
  lemma SecondPassClaims()
    ensures Claimed(TwoVideos(), TwoVideos().keys, OneWay, 0.95, "b", {}) == ["a"]
  {
    var d := TwoVideos();
    assert d.keys[..1] == ["a"] && d.keys[..0] == [];
    assert Close(d, OneWay, 0.95, "b", "a");
  }

  /** Without symmetry a seed can be claimed by a later seed and so sit in two
      groups: `b` is close to `a`, but `a` is not close to `b`, so `a` is in
      its own group and in `b`'s. */
  lemma SeedInTwoGroups()
    ensures var e := Groups(TwoVideos(), 0.95, OneWay).entries;
      && e == map["a" := ["a"], "b" := ["b", "a"]]
      && "a" in e["a"] && "a" in e["b"]
  {
    var d := TwoVideos();
    var g1 := Grouping(Dict(["a"], map["a" := ["a"]]), {});
    FirstPassOfTwo();
    SecondPassClaims();
    var g2 := Step(d, OneWay, 0.95, g1, "b");
    assert |d.keys| == 2 && Run(d, OneWay, 0.95, 2) == g2;
    assert ["b"] + ["a"] == ["b", "a"];
    assert g2.groups == g1.groups.Put("b", ["b", "a"]);
    assert g2.groups.entries == map["a" := ["a"], "b" := ["b", "a"]];
  }
}
