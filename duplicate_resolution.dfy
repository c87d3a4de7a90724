/** `process_duplicates` (main.py): in every group of two or more videos the
    highest-scoring one is kept and every other one is moved into the
    duplicates directory under its own base name. ffprobe and `shutil.move`
    are oracles: a probe gives its stdout (None when the run raised) for a
    path as it stands after the moves attempted so far, since each group's
    videos are probed only when the loop reaches that group, and whether a
    move succeeds may depend on every move attempted before it. */
module DuplicateResolution {
  import opened Basics
  import opened OrderedDicts
  import opened WinPaths
  import opened QualityScore
  import opened Ranking

  /** One ffprobe command run on a path once the given moves have been
      attempted (a video moved away is no longer at its path): its stdout,
      or None if the run raised. */
  type Probe = (seq<Move>, Path) -> Option<string>

  /** A move `shutil.move` is asked to make. */
  datatype Transfer = Transfer(src: Path, dest: Path)

  /** A move attempted, and whether `shutil.move` returned (false when it
      raised and the exception was caught). */
  datatype Move = Move(src: Path, dest: Path, moved: bool)

  /** Whether `shutil.move(src, dest)` succeeds after the earlier attempts. */
  type Mover = (seq<Move>, Path, Path) -> bool

  /** A score for every path. */
  type Scorer = Path -> real

  /** A scorer for each group, by the group's position in the dict's order. */
  type Scorers = nat -> Scorer

  /** `get_video_score` for the given ffprobe outcomes, probing once `moves`
      have been attempted. */
  function ScoreWith(stream: Probe, duration: Probe, moves: seq<Move>): Scorer
  {
    p => VideoScore(stream(moves, p), duration(moves, p))
  }

  /** The group at position `i` of the dict's order. */
  function GroupAt(groups: Dict<seq<Path>>, i: nat): seq<Path>
    requires groups.Valid() && i < |groups.keys|
  {
    groups.entries[groups.keys[i]]
  }

  /** `[(get_video_score(path), path) for path in group]`. */
  function Scores(group: seq<Path>, score: Scorer): (r: seq<Scored>)
    ensures |r| == |group|
    ensures forall i :: 0 <= i < |r| ==> r[i] == Scored(score(group[i]), group[i])
  {
    seq(|group|, i requires 0 <= i < |group| => Scored(score(group[i]), group[i]))
  }

  /** `sorted(..., reverse=True)` of the scored group. */
  function Ranked(group: seq<Path>, score: Scorer): (r: seq<Scored>)
    ensures |r| == |group|
  {
    var r := SortDescending(Scores(group, score));
    assert |multiset(r)| == |multiset(Scores(group, score))|;
    r
  }

  /** `scored[0][1]`: the path kept. */
  function Keeper(group: seq<Path>, score: Scorer): Path
    requires |group| >= 1
  {
    Ranked(group, score)[0].path
  }

  /** `os.path.join(duplicate_dir, os.path.basename(path))`. */
  function Destination(dir: Path, src: Path): Path
  {
    Join(dir, Basename(src))
  }

  /** The destination of every move into `dir`. */
  function Destinations(dir: Path): Path -> Path
  {
    src => Destination(dir, src)
  }

  /** The moves for the entries of the sorted list, in order, each path to
      its destination. */
  function Transfers(rs: seq<Scored>, dest: Path -> Path): (t: seq<Transfer>)
    ensures |t| == |rs|
  {
    if rs == [] then []
    else Transfers(rs[..|rs| - 1], dest) + [Transfer(rs[|rs| - 1].path, dest(rs[|rs| - 1].path))]
  }

  /** The moves one group asks for: none for a group of at most one video or
      when `keep_best` is false, otherwise one per entry after the first of
      the sorted list. The plan is stated for any destination function `dest`;
      `process_duplicates` uses `Destinations(duplicate_dir)`. */
  function GroupPlan(group: seq<Path>, keepBest: bool, dest: Path -> Path, score: Scorer): seq<Transfer>
  {
    if |group| <= 1 || !keepBest then []
    else Transfers(Ranked(group, score)[1..], dest)
  }

  /** The moves each group asks for, in the dict's order, group `i` ranked
      with `scores(i)`. */
  function GroupPlans(groups: Dict<seq<Path>>, keepBest: bool, dest: Path -> Path, scores: Scorers): (r: seq<seq<Transfer>>)
    requires groups.Valid()
    ensures |r| == |groups.keys|
  {
    seq(|groups.keys|, i requires 0 <= i < |groups.keys| =>
      GroupPlan(GroupAt(groups, i), keepBest, dest, scores(i)))
  }

  /** Every move `process_duplicates` asks for, in order. */
  function Plan(groups: Dict<seq<Path>>, keepBest: bool, dest: Path -> Path, scores: Scorers): seq<Transfer>
    requires groups.Valid()
  {
    Concat(GroupPlans(groups, keepBest, dest, scores))
  }

  /** Attempting the planned moves one after the other: a failed move is
      recorded and the next one is still attempted. */
  function Attempt(plan: seq<Transfer>, mover: Mover): (r: seq<Move>)
    ensures |r| == |plan|
  {
    if plan == [] then []
    else
      var prev := Attempt(plan[..|plan| - 1], mover);
      var t := plan[|plan| - 1];
      prev + [Move(t.src, t.dest, mover(prev, t.src, t.dest))]
  }

  /** The moves the first `n` groups ask for when each group is ranked by
      probes run once the moves the groups before it asked for have been
      attempted. */
  function Planned(groups: Dict<seq<Path>>, keepBest: bool, dest: Path -> Path,
                   stream: Probe, duration: Probe, mover: Mover, n: nat): seq<Transfer>
    requires groups.Valid() && n <= |groups.keys|
  {
    if n == 0 then []
    else
      var before := Planned(groups, keepBest, dest, stream, duration, mover, n - 1);
      before + GroupPlan(GroupAt(groups, n - 1), keepBest, dest, ScoreWith(stream, duration, Attempt(before, mover)))
  }

  /** The scorer each group is ranked with by `process_duplicates`: its
      probes see every move attempted for the groups before it. */
  function GroupScorers(groups: Dict<seq<Path>>, keepBest: bool, dest: Path -> Path,
                        stream: Probe, duration: Probe, mover: Mover): Scorers
    requires groups.Valid()
  {
    (i: nat) => ScoreWith(stream, duration,
      Attempt(Planned(groups, keepBest, dest, stream, duration, mover,
                      if i <= |groups.keys| then i else |groups.keys|), mover))
  }

  /** Group `n` is ranked by probes run once every move the groups before it
      asked for has been attempted: `Planned` is the plan of the first `n`
      groups, each ranked with its own scorer. */
  lemma {:induction false} ScoredAfterEarlierMoves(groups: Dict<seq<Path>>, keepBest: bool, dest: Path -> Path,
                                                   stream: Probe, duration: Probe, mover: Mover, n: nat)
    requires groups.Valid() && n <= |groups.keys|
    ensures var scores := GroupScorers(groups, keepBest, dest, stream, duration, mover);
      var plans := GroupPlans(groups, keepBest, dest, scores);
      && Planned(groups, keepBest, dest, stream, duration, mover, n) == Concat(plans[..n])
      && (n < |groups.keys| ==> scores(n) == ScoreWith(stream, duration, Attempt(Concat(plans[..n]), mover)))
  {
    var scores := GroupScorers(groups, keepBest, dest, stream, duration, mover);
    var plans := GroupPlans(groups, keepBest, dest, scores);
    if n > 0 {
      ScoredAfterEarlierMoves(groups, keepBest, dest, stream, duration, mover, n - 1);
      ConcatSnoc(plans, n - 1);
    }
  }

  /** `process_duplicates` itself: the loop over the groups, scoring each
      video of a group with the two ffprobe runs when the loop reaches it. */
  method ProcessDuplicates(groups: Dict<seq<Path>>, keepBest: bool, duplicateDir: Path,
                           stream: Probe, duration: Probe, mover: Mover)
    returns (moves: seq<Move>)
    requires groups.Valid()
    ensures var dest := Destinations(duplicateDir);
      moves == Attempt(Plan(groups, keepBest, dest, GroupScorers(groups, keepBest, dest, stream, duration, mover)), mover)
  {
    var dest := Destinations(duplicateDir);
    ghost var scores := GroupScorers(groups, keepBest, dest, stream, duration, mover);
    ghost var plans := GroupPlans(groups, keepBest, dest, scores);
    moves := [];
    for n := 0 to |groups.keys|
      invariant moves == Attempt(Concat(plans[..n]), mover)
    {
      var group := groups.entries[groups.keys[n]];
      ghost var done := Concat(plans[..n]);
      ConcatSnoc(plans, n);
      ScoredAfterEarlierMoves(groups, keepBest, dest, stream, duration, mover, n);
      var score := ScoreWith(stream, duration, moves);
      assert plans[n] == GroupPlan(group, keepBest, dest, score);
      if |group| > 1 && keepBest {
        var scored := Ranked(group, score);
        moves := MoveAllButFirst(scored, dest, mover, done, moves);
      } else {
        assert done + GroupPlan(group, keepBest, dest, score) == done;
      }
    }
    assert plans[..|groups.keys|] == plans;
  }

  /** The inner loop of `process_duplicates` for one group: every entry of
      the sorted list after the first is moved to `dest` of its path, each
      attempt seeing all the attempts before it (`done` is what the earlier
      groups asked for). */
  method MoveAllButFirst(scored: seq<Scored>, dest: Path -> Path, mover: Mover,
                         ghost done: seq<Transfer>, moves0: seq<Move>)
    returns (moves: seq<Move>)
    requires |scored| >= 1 && moves0 == Attempt(done, mover)
    ensures moves == Attempt(done + Transfers(scored[1..], dest), mover)
  {
    moves := moves0;
    ghost var planned: seq<Transfer> := [];
    assert done + planned == done;
    for i := 1 to |scored|
      invariant planned == Transfers(scored[1..i], dest)
      invariant moves == Attempt(done + planned, mover)
    {
      var path := scored[i].path;
      var destPath := dest(path);
      var ok := mover(moves, path, destPath);
      ghost var t := Transfer(path, destPath);
      AttemptOneMore(done + planned, t, mover);
      TransfersStep(scored, i, dest);
      assert done + (planned + [t]) == (done + planned) + [t];
      planned := planned + [t];
      moves := moves + [Move(path, destPath, ok)];
    }
    assert scored[1..|scored|] == scored[1..];
  }

  /** One more entry of the sorted list adds its move at the end. */
  lemma TransfersStep(scored: seq<Scored>, i: nat, dest: Path -> Path)
    requires 1 <= i < |scored|
    ensures Transfers(scored[1..i + 1], dest)
         == Transfers(scored[1..i], dest) + [Transfer(scored[i].path, dest(scored[i].path))]
  {
    assert scored[1..i + 1][..i - 1] == scored[1..i];
  }

  /** Attempting one more planned move appends its attempt. */
  lemma AttemptOneMore(plan: seq<Transfer>, t: Transfer, mover: Mover)
    ensures Attempt(plan + [t], mover)
         == Attempt(plan, mover) + [Move(t.src, t.dest, mover(Attempt(plan, mover), t.src, t.dest))]
  {
    assert (plan + [t])[..|plan|] == plan;
  }

  /** Every planned move is attempted, in order, whatever the earlier
      attempts returned. */
  lemma {:induction false} AttemptFollowsPlan(plan: seq<Transfer>, mover: Mover)
    ensures var r := Attempt(plan, mover);
      forall i :: 0 <= i < |r| ==> r[i].src == plan[i].src && r[i].dest == plan[i].dest
  {
    if plan != [] {
      var p' := plan[..|plan| - 1];
      AttemptFollowsPlan(p', mover);
      var r := Attempt(plan, mover);
      forall i | 0 <= i < |r| - 1
        ensures r[i].src == plan[i].src && r[i].dest == plan[i].dest
      {
        assert r[i] == Attempt(p', mover)[i] && plan[i] == p'[i];
      }
    }
  }

  /** Each attempt's outcome is the oracle's answer for exactly the attempts
      made before it: a failure stops nothing. */
  lemma {:induction false} AttemptOutcomes(plan: seq<Transfer>, mover: Mover)
    ensures var r := Attempt(plan, mover);
      forall i :: 0 <= i < |r| ==> r[i].moved == mover(r[..i], plan[i].src, plan[i].dest)
  {
    if plan != [] {
      var p' := plan[..|plan| - 1];
      AttemptOutcomes(p', mover);
      var r, prev := Attempt(plan, mover), Attempt(p', mover);
      assert r[..|p'|] == prev;
      forall i | 0 <= i < |r|
        ensures r[i].moved == mover(r[..i], plan[i].src, plan[i].dest)
      {
        if i < |p'| {
          assert r[..i] == prev[..i] && r[i] == prev[i] && plan[i] == p'[i];
        }
      }
    }
  }

  /** Entry `i` of the moves for a sorted list is the move of its `i`-th
      path. */
  lemma {:induction false} TransfersAt(rs: seq<Scored>, dest: Path -> Path)
    ensures var t := Transfers(rs, dest);
      forall i :: 0 <= i < |t| ==> t[i] == Transfer(rs[i].path, dest(rs[i].path))
  {
    if rs != [] {
      TransfersAt(rs[..|rs| - 1], dest);
    }
  }

  /** The kept video is in the group and beats every other one: a higher
      score, or the same score and a larger path (the tuple comparison). */
  lemma KeeperIsBest(group: seq<Path>, score: Scorer)
    requires |group| >= 1
    ensures var k := Keeper(group, score);
      && k in group
      && forall p :: p in group && p != k ==>
           score(k) > score(p) || (score(k) == score(p) && StrLess(p, k))
  {
    var s := Scores(group, score);
    var r := Ranked(group, score);
    var k := Keeper(group, score);
    SortDescendingSorts(s);
    assert s[0] in s;
    HeadIsGreatest(s, s[0]);
    var m :| 0 <= m < |s| && s[m] == r[0];
    assert k == group[m] && r[0] == Scored(score(k), k);
    forall p | p in group && p != k
      ensures score(k) > score(p) || (score(k) == score(p) && StrLess(p, k))
    {
      var j :| 0 <= j < |group| && group[j] == p;
      assert s[j] in s;
      HeadIsGreatest(s, s[j]);
    }
  }

  /** Every entry of the sorted list is a video of the group. */
  lemma RankedEntries(group: seq<Path>, score: Scorer)
    ensures var r := Ranked(group, score);
      forall i :: 0 <= i < |r| ==> r[i].path in group
  {
    var s, r := Scores(group, score), Ranked(group, score);
    SortDescendingSorts(s);
    forall i | 0 <= i < |r|
      ensures r[i].path in group
    {
      assert r[i] in multiset(s);
      var a :| 0 <= a < |s| && s[a] == r[i];
    }
  }

  /** Every video of the group has an entry in the sorted list. */
  lemma RankedCovers(group: seq<Path>, score: Scorer, p: Path)
    requires p in group
    ensures var r := Ranked(group, score);
      exists i :: 0 <= i < |r| && r[i].path == p
  {
    var s, r := Scores(group, score), Ranked(group, score);
    SortDescendingSorts(s);
    var j :| 0 <= j < |group| && group[j] == p;
    assert s[j] in multiset(r);
    var i :| 0 <= i < |r| && r[i] == s[j];
  }

  /** In a group of distinct videos no path has two entries in the sorted
      list. */
  lemma RankedPathsDistinct(group: seq<Path>, score: Scorer)
    requires Distinct(group)
    ensures var r := Ranked(group, score);
      forall i, j :: 0 <= i < |r| && 0 <= j < |r| && r[i].path == r[j].path ==> i == j
  {
    var s, r := Scores(group, score), Ranked(group, score);
    SortDescendingSorts(s);
    assert Distinct(s) by {
      forall i, j | 0 <= i < j < |s|
        ensures s[i] != s[j]
      {
        assert s[i].path == group[i] && s[j].path == group[j];
      }
    }
    DistinctPermutation(s, r);
    forall i, j | 0 <= i < |r| && 0 <= j < |r| && r[i].path == r[j].path
      ensures i == j
    {
      assert r[i] in multiset(s) && r[j] in multiset(s);
      var a :| 0 <= a < |s| && s[a] == r[i];
      var b :| 0 <= b < |s| && s[b] == r[j];
      assert group[a] == group[b];
    }
  }

  /** The moves for the tail of a list whose entries are the videos of
      `group`, each exactly once: they take every video but the head's, each
      once, into the duplicates directory under its base name. */
  lemma TailTransfers(r: seq<Scored>, group: seq<Path>, dest: Path -> Path)
    requires |r| >= 1
    requires forall i :: 0 <= i < |r| ==> r[i].path in group
    requires forall p :: p in group ==> exists i :: 0 <= i < |r| && r[i].path == p
    requires forall i, j :: 0 <= i < |r| && 0 <= j < |r| && r[i].path == r[j].path ==> i == j
    ensures var plan := Transfers(r[1..], dest);
      && (forall t :: t in plan ==> t.dest == dest(t.src))
      && (forall p :: (exists t :: t in plan && t.src == p) <==> p in group && p != r[0].path)
      && (forall i, j :: 0 <= i < j < |plan| ==> plan[i].src != plan[j].src)
  {
    var plan := Transfers(r[1..], dest);
    TransfersAt(r[1..], dest);
    TailSources(r, plan, group);
  }

  /** Entry `i` of `plan` moving the path of entry `i + 1` of `r`, the
      sources of `plan` are the paths of `group` but the head's, each once. */
  lemma TailSources(r: seq<Scored>, plan: seq<Transfer>, group: seq<Path>)
    requires |r| >= 1 && |plan| == |r| - 1
    requires forall i :: 0 <= i < |plan| ==> plan[i].src == r[i + 1].path
    requires forall i :: 0 <= i < |r| ==> r[i].path in group
    requires forall p :: p in group ==> exists i :: 0 <= i < |r| && r[i].path == p
    requires forall i, j :: 0 <= i < |r| && 0 <= j < |r| && r[i].path == r[j].path ==> i == j
    ensures forall p :: (exists t :: t in plan && t.src == p) <==> p in group && p != r[0].path
    ensures forall i, j :: 0 <= i < j < |plan| ==> plan[i].src != plan[j].src
  {
    forall p
      ensures (exists t :: t in plan && t.src == p) <==> p in group && p != r[0].path
    {
      if p in group && p != r[0].path {
        var i :| 0 <= i < |r| && r[i].path == p;
        assert plan[i - 1].src == p;
      }
      if exists t :: t in plan && t.src == p {
        var t :| t in plan && t.src == p;
        var i :| 0 <= i < |plan| && plan[i] == t;
        assert r[i + 1].path == p;
      }
    }
  }

  /** A group of two or more distinct videos, with `keep_best`, asks for one
      move per video other than the kept one, each into the duplicates
      directory under its own base name; no video is asked to move twice. */
  lemma GroupPlanMovesAllButKeeper(group: seq<Path>, dest: Path -> Path, score: Scorer)
    requires |group| >= 2 && Distinct(group)
    ensures var plan, k := GroupPlan(group, true, dest, score), Keeper(group, score);
      && |plan| == |group| - 1
      && (forall t :: t in plan ==> t.dest == dest(t.src))
      && (forall p :: (exists t :: t in plan && t.src == p) <==> p in group && p != k)
      && (forall i, j :: 0 <= i < j < |plan| ==> plan[i].src != plan[j].src)
  {
    var r := Ranked(group, score);
    assert GroupPlan(group, true, dest, score) == Transfers(r[1..], dest);
    assert Keeper(group, score) == r[0].path;
    RankedEntries(group, score);
    RankedPathsDistinct(group, score);
    forall p | p in group
      ensures exists i :: 0 <= i < |r| && r[i].path == p
    {
      RankedCovers(group, score, p);
    }
    TailTransfers(r, group, dest);
  }

  /** A video whose probes fail when its group is scored (one raised, printed
      nothing, or printed something that does not unpack or convert) scores 0
      and is never kept while another video of its group scores more than 0. */
  lemma ProbeFailureLoses(group: seq<Path>, stream: Probe, duration: Probe, moves: seq<Move>,
                          failed: Path, other: Path)
    requires failed in group && other in group
    requires ProbeFailed(stream(moves, failed), duration(moves, failed))
    requires VideoScore(stream(moves, other), duration(moves, other)) > 0.0
    ensures Keeper(group, ScoreWith(stream, duration, moves)) != failed
  {
    ScoreZeroOnProbeFailure(stream(moves, failed), duration(moves, failed));
    KeeperIsBest(group, ScoreWith(stream, duration, moves));
  }

  /** With `keep_best` false nothing is moved. */
  lemma KeepBestOffMovesNothing(groups: Dict<seq<Path>>, dest: Path -> Path, scores: Scorers)
    requires groups.Valid()
    ensures Plan(groups, false, dest, scores) == []
  {
    var plans := GroupPlans(groups, false, dest, scores);
    assert forall i :: 0 <= i < |plans| ==> plans[i] == GroupPlan(GroupAt(groups, i), false, dest, scores(i));
    ConcatEmpties(plans);
  }

  /** The plan is the groups' plans one after the other: a move is asked for
      exactly when some group asks for it. */
  lemma PlanMembership(groups: Dict<seq<Path>>, keepBest: bool, dest: Path -> Path, scores: Scorers)
    requires groups.Valid()
    ensures forall t :: t in Plan(groups, keepBest, dest, scores) <==>
      exists i :: 0 <= i < |groups.keys| && t in GroupPlan(GroupAt(groups, i), keepBest, dest, scores(i))
  {
    var plans := GroupPlans(groups, keepBest, dest, scores);
    assert forall i :: 0 <= i < |plans| ==> plans[i] == GroupPlan(GroupAt(groups, i), keepBest, dest, scores(i));
    forall t
      ensures t in Concat(plans) <==> exists i :: 0 <= i < |groups.keys| && t in plans[i]
    {
      ConcatMembership(plans, t);
    }
  }

  /** The video a move takes. */
  function Source(t: Transfer): Path
  {
    t.src
  }

  /** Groups that list distinct videos, no video in two groups, ask for no
      video to be moved twice, however each group is scored. */
  lemma PlanSourcesDistinct(groups: Dict<seq<Path>>, dest: Path -> Path, scores: Scorers)
    requires groups.Valid()
    requires forall s :: s in groups.entries ==> Distinct(groups.entries[s])
    requires forall s1, s2, q ::
      (s1 in groups.entries && s2 in groups.entries && q in groups.entries[s1] && q in groups.entries[s2]) ==> s1 == s2
    ensures var plan := Plan(groups, true, dest, scores);
      forall i, j :: 0 <= i < j < |plan| ==> plan[i].src != plan[j].src
  {
    var plans := GroupPlans(groups, true, dest, scores);
    var e := groups.entries;
    forall i | 0 <= i < |plans|
      ensures DistinctBy(plans[i], Source)
      ensures forall t: Transfer :: t in plans[i] ==> t.src in e[groups.keys[i]]
    {
      var group := e[groups.keys[i]];
      assert plans[i] == GroupPlan(group, true, dest, scores(i));
      if |group| >= 2 {
        GroupPlanMovesAllButKeeper(group, dest, scores(i));
        forall t: Transfer | t in plans[i]
          ensures t.src in group
        {
          assert exists t': Transfer :: t' in plans[i] && t'.src == t.src;
        }
      }
    }
    forall i, j, x, y | 0 <= i < j < |plans| && x in plans[i] && y in plans[j]
      ensures Source(x) != Source(y)
    {
      assert groups.keys[i] != groups.keys[j];
    }
    ConcatDistinctBy(plans, Source);
    var plan := Plan(groups, true, dest, scores);
    assert forall i, j :: 0 <= i < j < |plan| ==> Source(plan[i]) != Source(plan[j]);
  }

  /** Every planned move takes a member other than the kept one of a group of
      two or more distinct videos, as that group was scored, to its
      destination. */
  lemma MovedIsNonKeeper(groups: Dict<seq<Path>>, dest: Path -> Path, scores: Scorers, t: Transfer)
    requires groups.Valid() && t in Plan(groups, true, dest, scores)
    requires forall s :: s in groups.entries ==> Distinct(groups.entries[s])
    ensures t.dest == dest(t.src)
    ensures exists i :: && 0 <= i < |groups.keys| && |GroupAt(groups, i)| >= 2 && t.src in GroupAt(groups, i)
                        && t.src != Keeper(GroupAt(groups, i), scores(i))
  {
    PlanMembership(groups, true, dest, scores);
    var i :| 0 <= i < |groups.keys| && t in GroupPlan(GroupAt(groups, i), true, dest, scores(i));
    var group := GroupAt(groups, i);
    var plan := GroupPlan(group, true, dest, scores(i));
    assert groups.keys[i] in groups.entries;
    assert |group| >= 2 && Distinct(group);
    GroupPlanMovesAllButKeeper(group, dest, scores(i));
    assert exists t' :: t' in plan && t'.src == t.src;
    assert t.src in group && t.src != Keeper(group, scores(i));
  }

  /** Groups that list distinct videos, all of them in `known`: every move
      takes one of `known` to its destination. */
  lemma MovesTakeListedVideos(groups: Dict<seq<Path>>, dest: Path -> Path, scores: Scorers, known: set<Path>)
    requires groups.Valid()
    requires forall s :: s in groups.entries ==> Distinct(groups.entries[s]) && forall q :: q in groups.entries[s] ==> q in known
    ensures forall t :: t in Plan(groups, true, dest, scores) ==> t.src in known && t.dest == dest(t.src)
  {
    forall t | t in Plan(groups, true, dest, scores)
      ensures t.src in known && t.dest == dest(t.src)
    {
      MovedIsNonKeeper(groups, dest, scores, t);
      var i :| && 0 <= i < |groups.keys| && |GroupAt(groups, i)| >= 2 && t.src in GroupAt(groups, i)
               && t.src != Keeper(GroupAt(groups, i), scores(i));
      assert groups.keys[i] in groups.entries;
    }
  }

  /** Every member other than the kept one of a group of two or more
      distinct videos, as that group was scored, is moved. */
  lemma NonKeeperIsMoved(groups: Dict<seq<Path>>, dest: Path -> Path, scores: Scorers)
    requires groups.Valid()
    ensures forall i, p ::
      (&& 0 <= i < |groups.keys| && |GroupAt(groups, i)| >= 2 && Distinct(GroupAt(groups, i))
       && p in GroupAt(groups, i) && p != Keeper(GroupAt(groups, i), scores(i))) ==>
      exists t :: t in Plan(groups, true, dest, scores) && t.src == p
  {
    PlanMembership(groups, true, dest, scores);
    forall i, p | && 0 <= i < |groups.keys| && |GroupAt(groups, i)| >= 2 && Distinct(GroupAt(groups, i))
                  && p in GroupAt(groups, i) && p != Keeper(GroupAt(groups, i), scores(i))
      ensures exists t :: t in Plan(groups, true, dest, scores) && t.src == p
    {
      var group := GroupAt(groups, i);
      GroupPlanMovesAllButKeeper(group, dest, scores(i));
      var t :| t in GroupPlan(group, true, dest, scores(i)) && t.src == p;
      assert t in Plan(groups, true, dest, scores);
    }
  }

  /** Groups that list distinct videos, no video in two groups: a video
      that is moved is in no group of fewer than two videos and is not the
      kept one of the group that lists it. */
  lemma KeeperNeverMoved(groups: Dict<seq<Path>>, dest: Path -> Path, scores: Scorers, t: Transfer, i: nat)
    requires groups.Valid()
    requires forall s :: s in groups.entries ==> Distinct(groups.entries[s])
    requires forall s1, s2, q ::
      (s1 in groups.entries && s2 in groups.entries && q in groups.entries[s1] && q in groups.entries[s2]) ==> s1 == s2
    requires t in Plan(groups, true, dest, scores) && i < |groups.keys| && t.src in GroupAt(groups, i)
    ensures |GroupAt(groups, i)| >= 2 && t.src != Keeper(GroupAt(groups, i), scores(i))
  {
    MovedIsNonKeeper(groups, dest, scores, t);
    var j :| && 0 <= j < |groups.keys| && |GroupAt(groups, j)| >= 2 && t.src in GroupAt(groups, j)
             && t.src != Keeper(GroupAt(groups, j), scores(j));
    var si, sj := groups.keys[i], groups.keys[j];
    assert si in groups.entries && sj in groups.entries;
    assert t.src in groups.entries[si] && t.src in groups.entries[sj];
    assert si == sj;
    assert i == j;
  }

  /** A later group is probed after the earlier groups' moves: a member whose
      probe now fails (ffprobe prints nothing for a file an earlier group moved
      away) is not kept while another member still scores above 0, and is
      asked to move again. */
  lemma MovedAwayNotKept(groups: Dict<seq<Path>>, dest: Path -> Path, stream: Probe, duration: Probe,
                         mover: Mover, i: nat, p: Path, other: Path)
    requires groups.Valid() && i < |groups.keys|
    requires |GroupAt(groups, i)| >= 2 && Distinct(GroupAt(groups, i))
    requires p in GroupAt(groups, i) && other in GroupAt(groups, i)
    requires var moves := Attempt(Planned(groups, true, dest, stream, duration, mover, i), mover);
      && ProbeFailed(stream(moves, p), duration(moves, p))
      && VideoScore(stream(moves, other), duration(moves, other)) > 0.0
    ensures var scores := GroupScorers(groups, true, dest, stream, duration, mover);
      && p != Keeper(GroupAt(groups, i), scores(i))
      && exists t :: t in Plan(groups, true, dest, scores) && t.src == p
  {
    var scores := GroupScorers(groups, true, dest, stream, duration, mover);
    var moves := Attempt(Planned(groups, true, dest, stream, duration, mover, i), mover);
    assert scores(i) == ScoreWith(stream, duration, moves);
    ProbeFailureLoses(GroupAt(groups, i), stream, duration, moves, p, other);
    NonKeeperIsMoved(groups, dest, scores);
  }

  /** `D:\new\a.mp4` sorts below `D:\new\b.mp4`. */
  lemma TiePathsOrdered()
    ensures StrLess("D:\\new\\a.mp4", "D:\\new\\b.mp4")
    ensures !StrLess("D:\\new\\b.mp4", "D:\\new\\a.mp4")
  {
    var pre := "D:\\new\\";
    assert "D:\\new\\a.mp4" == pre + "a.mp4" && "D:\\new\\b.mp4" == pre + "b.mp4";
    StrLessCommonPrefix(pre, "a.mp4", "b.mp4");
    StrLessAsymmetric("D:\\new\\a.mp4", "D:\\new\\b.mp4");
  }

  /** Two videos with equal scores: the one with the larger path is kept and
      the other is moved. */
  lemma TieKeepsLarger(a: Path, b: Path, dest: Path -> Path, score: Scorer)
    requires StrLess(a, b) && score(a) == score(b)
    ensures Keeper([a, b], score) == b
    ensures GroupPlan([a, b], true, dest, score) == [Transfer(a, dest(a))]
  {
    var group := [a, b];
    TieKeeper(a, b, score);
    StrLessIrreflexive(a);
    var r := Ranked(group, score);
    RankedEntries(group, score);
    RankedPathsDistinct(group, score);
    assert r[1].path in group && r[1].path != r[0].path;
    var plan := Transfers(r[1..], dest);
    TransfersAt(r[1..], dest);
    assert plan == [plan[0]];
  }

  lemma TieKeeper(a: Path, b: Path, score: Scorer)
    requires StrLess(a, b) && score(a) == score(b)
    ensures Keeper([a, b], score) == b
  {
    KeeperIsBest([a, b], score);
    StrLessAsymmetric(a, b);
  }

  /** The probe outcomes tie (the stream probes of both videos raise, so both
      score 0): the larger path is kept, even though the other one is the
      group's seed, and the seed goes into the duplicates directory. */
  lemma TieKeepsLargerPath(stream: Probe, duration: Probe, moves: seq<Move>, dest: Path -> Path)
    requires stream(moves, "D:\\new\\a.mp4").None? && stream(moves, "D:\\new\\b.mp4").None?
    ensures var score := ScoreWith(stream, duration, moves);
      && Keeper(["D:\\new\\a.mp4", "D:\\new\\b.mp4"], score) == "D:\\new\\b.mp4"
      && GroupPlan(["D:\\new\\a.mp4", "D:\\new\\b.mp4"], true, dest, score)
         == [Transfer("D:\\new\\a.mp4", dest("D:\\new\\a.mp4"))]
  {
    var a, b := "D:\\new\\a.mp4", "D:\\new\\b.mp4";
    ScoreZeroOnProbeFailure(stream(moves, a), duration(moves, a));
    ScoreZeroOnProbeFailure(stream(moves, b), duration(moves, b));
    TiePathsOrdered();
    TieKeepsLarger(a, b, dest, ScoreWith(stream, duration, moves));
  }
}
