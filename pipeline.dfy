/** The settings and the `__main__` block of main.py: scan the configured
    directories, group the embedded videos, and move every duplicate but the
    best of each group aside. */
module Pipeline {
  import opened Basics
  import opened OrderedDicts
  import opened WinPaths
  import opened FrameExtraction
  import opened VideoScan
  import opened SimilarityGrouping
  import opened DuplicateResolution

  /** `SOURCE_DIRS`, scanned in this order. */
  const SourceDirs: seq<Path> := [
    "C:\\Users\\Noie\\Downloads\\Video",
    "D:\\new",
    "D:\\new-2",
    "D:\\new-3",
    "D:\\new-4",
    "D:\\new-5",
    "D:\\new-6",
    "D:\\new-7",
    "D:\\new-8",
    "D:\\new-9",
    "D:\\new-10",
    "D:\\big-fav",
    "D:\\video"
  ]

  /** `DUPLICATE_DIR`. */
  const DuplicateDir: Path := "D:\\vid-duplicated"

  /** `SIMILARITY_THRESHOLD`. */
  const SimilarityThreshold: real := 0.95

  /** `KEEP_BEST`. */
  const KeepBest: bool := true

  /** The `__main__` block: the three stages one after the other, each as
      its own method describes it. */
  method Deduplicate(glob: Glob, seek: Seekers, raw: RawRuns, encoder: Encoder, frames0: Frames,
                     sim: Similarity, stream: Probe, duration: Probe, mover: Mover)
    returns (videoEmbeddings: Dict<Embedding>, groups: Dict<seq<Path>>, moves: seq<Move>)
    ensures var videos := VideoFiles(SourceDirs, glob);
      var dest := Destinations(DuplicateDir);
      && videoEmbeddings == ScanPrefix(videos, StageOf(seek, raw, encoder), frames0, |videos|).embeddings
      && groups == Groups(videoEmbeddings, SimilarityThreshold, sim)
      && moves == Attempt(Plan(groups, KeepBest, dest, GroupScorers(groups, KeepBest, dest, stream, duration, mover)), mover)
  {
    var frames;
    videoEmbeddings, frames := ProcessVideos(SourceDirs, glob, seek, raw, encoder, frames0);
    groups := FindDuplicates(videoEmbeddings, SimilarityThreshold, sim);
    moves := ProcessDuplicates(groups, KeepBest, DuplicateDir, stream, duration, mover);
  }

  /** Every move the pipeline asks for takes an embedded video into the
      duplicates directory, under its own file name; every member of a group
      of two or more other than the one kept when that group was scored is
      moved. */
  lemma MovesTakeNonKeepers(d: Dict<Embedding>, sim: Similarity, scores: Scorers)
    requires d.Valid()
    ensures var groups := Groups(d, SimilarityThreshold, sim);
      var plan := Plan(groups, KeepBest, Destinations(DuplicateDir), scores);
      && (forall t :: t in plan ==>
            && t.src in d.entries
            && t.dest == Destination(DuplicateDir, t.src)
            && Basename(t.dest) == Basename(t.src))
      && (forall i, p :: (&& 0 <= i < |groups.keys| && |GroupAt(groups, i)| >= 2 && p in GroupAt(groups, i)
                          && p != Keeper(GroupAt(groups, i), scores(i))) ==>
            exists t :: t in plan && t.src == p)
  {
    var groups := Groups(d, SimilarityThreshold, sim);
    var plan := Plan(groups, KeepBest, Destinations(DuplicateDir), scores);
    GroupMembers(d, SimilarityThreshold, sim);
    MovesTakeListedVideos(groups, Destinations(DuplicateDir), scores, d.entries.Keys);
    assert DriveLength(DuplicateDir) == 2;
    forall t | t in plan
      ensures Basename(t.dest) == Basename(t.src)
    {
      BasenameOfJoin(DuplicateDir, t.src);
    }
    assert forall i :: 0 <= i < |groups.keys| ==> groups.keys[i] in groups.entries;
    NonKeeperIsMoved(groups, Destinations(DuplicateDir), scores);
  }

  /** With a symmetric similarity no video is moved twice, and no kept video
      is moved at all: the groups partition the videos, so a video is the
      kept one of its only group or one of the others moved out of it. */
  lemma NoVideoMovedTwice(d: Dict<Embedding>, sim: Similarity, scores: Scorers)
    requires d.Valid() && Symmetric(d, sim)
    ensures var groups := Groups(d, SimilarityThreshold, sim);
      var plan := Plan(groups, KeepBest, Destinations(DuplicateDir), scores);
      && (forall i, j :: 0 <= i < j < |plan| ==> plan[i].src != plan[j].src)
      && (forall t, i :: t in plan && 0 <= i < |groups.keys| && t.src in GroupAt(groups, i) ==>
            |GroupAt(groups, i)| >= 2 && t.src != Keeper(GroupAt(groups, i), scores(i)))
  {
    var groups := Groups(d, SimilarityThreshold, sim);
    GroupMembers(d, SimilarityThreshold, sim);
    Partition(d, SimilarityThreshold, sim);
    PlanSourcesDistinct(groups, Destinations(DuplicateDir), scores);
    forall t, i | t in Plan(groups, KeepBest, Destinations(DuplicateDir), scores) && 0 <= i < |groups.keys|
      && t.src in GroupAt(groups, i)
      ensures |GroupAt(groups, i)| >= 2 && t.src != Keeper(GroupAt(groups, i), scores(i))
    {
      KeeperNeverMoved(groups, Destinations(DuplicateDir), scores, t, i);
    }
  }

  /** A video is moved only if it was listed by the scan and accepted there:
      a frame was extracted and embedded for it. */
  lemma MovedVideosWereAccepted(glob: Glob, seek: Seekers, raw: RawRuns, encoder: Encoder, frames0: Frames,
                                sim: Similarity, scores: Scorers)
    ensures var videos := VideoFiles(SourceDirs, glob);
      var st := StageOf(seek, raw, encoder);
      var d := ScanPrefix(videos, st, frames0, |videos|).embeddings;
      forall t :: t in Plan(Groups(d, SimilarityThreshold, sim), KeepBest, Destinations(DuplicateDir), scores) ==>
        exists i :: 0 <= i < |videos| && videos[i] == t.src && Accepted(videos, st, frames0, i)
  {
    var videos := VideoFiles(SourceDirs, glob);
    var st := StageOf(seek, raw, encoder);
    var d := ScanPrefix(videos, st, frames0, |videos|).embeddings;
    MovesTakeNonKeepers(d, sim, scores);
    KeysAccepted(videos, st, frames0, |videos|);
  }
}
