# Video duplicate manager: a verified model of its deduplication engine

The repository is a script, `main.py`. It finds near-duplicate videos and moves every copy but the best one aside. It does this in three stages:

1. `process_videos` lists the `.mp4` and `.ts` files under the configured source directories. It grabs one frame of each video with ffmpeg, trying three seek offsets and then a raw-decode fallback, and embeds the frame with CLIP.
2. `find_duplicates` groups the embedded videos greedily. It walks the insertion-ordered dict. Every path not yet claimed seeds a group, and the seed claims every other unclaimed path whose similarity to it is strictly above the threshold.
3. `process_duplicates` scores each video of a group of two or more with ffprobe: `width * height * duration * bitrate`, where a bitrate of 0 or less counts as 1. The probes run when the loop reaches the group, after the moves made for the groups before it. It sorts the `(score, path)` tuples in descending order, keeps the head and moves the others into the duplicates directory.

The model follows that structure, one Dafny module per component:

| module | models |
|---|---|
| `Basics`, `OrderedDicts` | paths, options, subsequences; a Python dict as its insertion-ordered keys plus a map |
| `WinPaths` | the Windows forms of `os.path.basename`, `os.path.join` and `os.path.splitext` |
| `PyText` | `str.strip`, `str.split`, `int()` and `float()` on text |
| `FrameExtraction` | `extract_frame`, over the outcomes of the ffmpeg runs |
| `VideoScan` | `process_videos`: the directory scan and the video loop |
| `SimilarityGrouping` | `find_duplicates` |
| `QualityScore` | `get_video_score` |
| `Ranking` | Python's order on strings and on `(score, path)` tuples, and `sorted(..., reverse=True)` |
| `DuplicateResolution` | `process_duplicates`: keeper choice and the moves |
| `Pipeline` | the settings and the `__main__` block |

Everything outside the script is an oracle parameter:

- `Glob` lists the files a pattern matches.
- `Seeker` and `RawRun` give the ffmpeg seek runs and the raw-decode run: what each returned, and the state of the output file afterwards.
- `Encoder` gives the CLIP embedding of an image file's bytes, or nothing when decoding or encoding raises.
- `Similarity` gives the similarity of two embeddings.
- `Probe` gives the text ffprobe prints for a path, or nothing when the call raises, given the move attempts made before it.
- `Mover` says whether `shutil.move` succeeds, given the attempts made before it.

Each loop of the script is a Dafny method whose `ensures` equates its result with a specification function. The properties are lemmas about those functions.

Five behaviours of the code, as written, are worth knowing:

- **Stale frames.** The frame file is named after the video's file-name stem only. `extract_frame` accepts any non-empty file at that path, even one it did not write. Windows file names ignore case, so the frame directory is keyed by the case-folded path. So two videos whose stems differ at most in letter case, whether in different directories or as `.mp4` and `.ts` (`D:\a\Clip.mp4` and `D:\b\clip.ts`), can share one frame and one embedding (`VideoScan.SameStemSameFrame`, `VideoScan.StaleFrameShared`).
- **The seed is never marked processed.** A seed stays out of `processed` after its own pass (`SimilarityGrouping.SeedNotProcessedAfterItsPass`), so a later seed can still claim it. The groups are disjoint only when the similarity is symmetric (`SimilarityGrouping.GroupsDisjoint`). Without symmetry a seed can land in two groups (`SimilarityGrouping.SeedInTwoGroups`).
- **Later groups are probed after earlier moves.** `get_video_score` runs when the loop reaches a group (main.py:151), after the moves of the groups before it (main.py:155-158). ffprobe does not raise when no file is at the path: it prints nothing, and unpacking the empty line into three integers raises, so a video that an earlier group moved away scores 0 (`QualityScore.EmptyOutputFails`). It is not kept while another member scores above 0, and its move is attempted again (`DuplicateResolution.MovedAwayNotKept`).
- **Ties on score go to the larger path string.** main.py:151 sorts `(score, path)` tuples, so order of discovery plays no part (`DuplicateResolution.TieKeepsLarger`).
- **An empty fallback frame returns `None`.** When the fallback's ffmpeg run succeeds with empty output (main.py:77-82), `extract_frame` reaches its end and returns `None`, not `False`. The model has a separate outcome for this.

## Model

| member | source | states |
|---|---|---|
| `OrderedDicts.Dict.Put` | main.py:102 | Assigning a key keeps the dict well formed. The key takes the new value. A new key goes last in iteration order; an existing key keeps its place. |
| `WinPaths.Basename` | main.py:94 | The base name has no separator and is the whole last component: what follows the last separator, or everything after the drive when there is none. |
| `WinPaths.FoldCaseAppend` | main.py:94 | Case folding works character by character, so the folded frame path is the folded directory, stem and extension. |
| `WinPaths.CaseVariantsSameFile` | main.py:94 | `D:\a\Clip.jpg` and `D:\a\clip.jpg` are different strings but name one file. |
| `WinPaths.BasenameOfJoin` | main.py:157 | Joining a drive directory with a file's base name gives a path with the same base name, so a moved video keeps its file name. |
| `WinPaths.LastDot` | main.py:95 | Gives the index of the last `.` in a name, or -1 when there is none. |
| `WinPaths.StemOfExtension` | main.py:95 | `splitext` of `stem.ext` gives back `stem` when `ext` has no dot and `stem` is not all dots. |
| `WinPaths.BasenameOfName` | main.py:94 | A bare file name is its own base name. |
| `FrameExtraction.FirstSuccess` | main.py:46-62 | Gives the first seek attempt, at or after a given one, that leaves a non-empty output file; every attempt before it failed. |
| `FrameExtraction.ExtractFrame` | main.py:44-82 | The loop with early return and fallback gives exactly the outcome, attempts, fallback use and output file of the extraction specification. |
| `FrameExtraction.SeeksInOrderFirstSuccessWins` | main.py:46-62 | Offsets are tried in the order 00:05:00, 00:02:00, 00:10:00. Every attempt before the last one tried failed. The call returns True without the fallback exactly when the last one tried succeeded. |
| `FrameExtraction.FallbackOnlyAfterAllSeeksFail` | main.py:64-82 | The fallback runs if and only if all three seeks fail. Its result then decides: a raise gives False, empty output gives None (falsy), and a decoded frame gives True when saving it succeeds. |
| `FrameExtraction.TruthyIff` | main.py:44-82 | The result is truthy exactly when some seek attempt succeeded or the fallback saved a frame. |
| `FrameExtraction.StaleImageAccepted` | main.py:58-60 | A non-empty file already at the output path is accepted by the first seek that returns without touching it. |
| `VideoScan.CollectVideoFiles` | main.py:86-89 | The directory loop builds exactly the scan-order file list. |
| `VideoScan.VideoFilesAppend` | main.py:87-89 | One more directory appends its `.mp4` matches and then its `.ts` matches, so the directory order is kept. |
| `VideoScan.VideoFilesFromDirs` | main.py:86-89 | A file is listed exactly when one directory's `.mp4` or `.ts` pattern matches it. |
| `VideoScan.ProcessVideos` | main.py:84-106 | Lists the files, then visits them in order; the returned dict and frame directory equal the specification state after the last video. |
| `VideoScan.VisitEmbeddings` | main.py:93-104 | A video whose extraction is truthy and whose frame embeds is put with its frame's embedding. Anything else leaves the dict unchanged. |
| `VideoScan.ScanStep` | main.py:93-104 | A visit only adds entries, and only for the visited video, exactly when it is accepted. Other entries are unchanged. |
| `VideoScan.KeysInScanOrder` | main.py:93-102 | The dict's keys keep the order of the scan. |
| `VideoScan.AcceptedIsKept` | main.py:97-102 | An accepted video keeps its entry through all later steps. |
| `VideoScan.KeyWasAccepted` | main.py:97-104 | Every key of the dict was accepted at some step. |
| `VideoScan.KeysAccepted` | main.py:97-104 | The keys are exactly the videos accepted at some step. |
| `VideoScan.EntryIsOwnEmbedding` | main.py:97-102 | When the listed files are distinct, an accepted video's entry is the embedding of the frame its own extraction left. |
| `VideoScan.RejectedWithoutFrame` | main.py:97 | A video with no successful seek and no saved fallback frame gets no entry. |
| `VideoScan.StaleFrameShared` | main.py:94-102 | Two videos whose frame paths name one file (equal up to case): when the second one's seek leaves the first one's frame in place, the second is accepted with the first one's embedding. |
| `VideoScan.FramePathOfFile` | main.py:94-95 | The frame path of `dir\stem.ext` is `FRAME_DIR\stem.jpg`. |
| `VideoScan.JoinFrameDir` | main.py:94 | Joining `FRAME_DIR` with a name inserts one backslash. |
| `VideoScan.FrameFileFolded` | main.py:94 | The case-folded frame path of a stem is the folded frame directory, the folded stem and `.jpg`. |
| `VideoScan.FramePathFolded` | main.py:94-95 | The case-folded frame path of `dir\stem.ext` depends only on the folded stem. |
| `VideoScan.SameStemSameFrame` | main.py:94-95 | Two files whose stems differ at most in letter case, in any drive directories and with any extensions, name one frame file. |
| `SimilarityGrouping.ClaimedMembers` | main.py:117-124 | A seed claims exactly the paths that are unprocessed, not the seed, and strictly more similar to the seed than the threshold. |
| `SimilarityGrouping.ClaimedInOrder` | main.py:117-123 | The claimed paths keep the dict's order. |
| `SimilarityGrouping.ClaimFor` | main.py:116-124 | The inner loop builds the seed followed by its claimed paths, and adds exactly those paths to `processed`. |
| `SimilarityGrouping.ClaimedStep` | main.py:117-124 | One inner iteration appends the path and marks it processed exactly when it is unprocessed, not the seed, and close to the seed. |
| `SimilarityGrouping.FindDuplicates` | main.py:108-127 | The nested loops give exactly the specification grouping. |
| `SimilarityGrouping.StepWellShaped` | main.py:113-125 | Each visit keeps every group well shaped: seed first, then paths in dict order, each close to the seed. |
| `SimilarityGrouping.StepSeedsAmong` | main.py:113-125 | A visit adds no seed other than the visited path. |
| `SimilarityGrouping.StepProcessedIsTails` | main.py:113-125 | `processed` stays exactly the set of paths claimed into the groups' tails. |
| `SimilarityGrouping.StepCovers` | main.py:113-125 | The visited path becomes a seed or was already claimed. |
| `SimilarityGrouping.StepClaimsAllClose` | main.py:116-124 | A new seed leaves every other path close to it claimed. |
| `SimilarityGrouping.StepTailsDisjoint` | main.py:118-124 | A new seed claims only paths no earlier seed claimed. |
| `SimilarityGrouping.StepSeedsUnclaimed` | main.py:114-124 | With a symmetric similarity, a new seed claims no earlier seed. |
| `SimilarityGrouping.RunSeedsAmong` | main.py:113-125 | Seeds are among the paths visited so far. |
| `SimilarityGrouping.RunFresh` | main.py:113-114 | The path visited at each step is not yet a seed. |
| `SimilarityGrouping.RunWellShaped` | main.py:113-125 | After any number of outer iterations, every group is well shaped. |
| `SimilarityGrouping.RunProcessedIsTails` | main.py:113-125 | After any number of outer iterations, `processed` is exactly the union of the tails. |
| `SimilarityGrouping.SeedNotProcessedAfterItsPass` | main.py:116-124 | A path that seeds a group at its pass is then a key of the result and is still not in `processed`. |
| `SimilarityGrouping.ProcessedGrows` | main.py:113-124 | `processed` only grows from one outer iteration to the next. |
| `SimilarityGrouping.ProcessedNeverSeeds` | main.py:113-115 | A path already in `processed` before its turn never seeds a group. |
| `SimilarityGrouping.RunCovers` | main.py:113-125 | After any number of outer iterations, every visited path is a seed or claimed. |
| `SimilarityGrouping.RunClaimsAllClose` | main.py:113-125 | After any number of outer iterations, every path close to a seed is claimed. |
| `SimilarityGrouping.RunTailsDisjoint` | main.py:113-125 | After any number of outer iterations, no path is in two tails. |
| `SimilarityGrouping.RunSeedsUnclaimed` | main.py:113-125 | With a symmetric similarity, no seed is ever claimed. |
| `SimilarityGrouping.GroupsShape` | main.py:108-127 | The result is keyed by the seeds, and each group is its seed followed by paths close to it in dict order. Every path is a seed or claimed. `processed` is the union of the tails, and no path is in two tails. |
| `SimilarityGrouping.EveryPathGrouped` | main.py:113-125 | Every path of the dict is in some group. |
| `SimilarityGrouping.GroupsDisjoint` | main.py:111-125 | With a symmetric similarity, no path is in two groups. |
| `SimilarityGrouping.Partition` | main.py:111-125 | With a symmetric similarity, the groups partition the videos. |
| `SimilarityGrouping.GroupMembers` | main.py:116-125 | Every group lists videos of the dict, each once, whatever the similarity. |
| `SimilarityGrouping.FirstPassOfTwo` | main.py:113-125 | With a one-way similarity, the first of two videos claims nothing. |
| `SimilarityGrouping.SecondPassClaims` | main.py:116-124 | The second video's pass then claims the first one, which was never marked processed. |
| `SimilarityGrouping.SeedInTwoGroups` | main.py:111-125 | Without symmetry, a seed ends up in two groups. |
| `PyText.StripStart` | main.py:137 | Removes exactly the leading whitespace. |
| `PyText.StripEnd` | main.py:137 | Removes exactly the trailing whitespace. |
| `PyText.Split` | main.py:137 | Gives at least one piece, and no piece contains the separator. |
| `PyText.JoinSplit` | main.py:137 | Joining the pieces of a split with the separator gives back the text. |
| `PyText.SplitJoin` | main.py:137 | Splitting separator-free pieces joined by the separator gives back the pieces. |
| `PyText.ParseIntText` | main.py:137 | `int()` reads back any integer's decimal text. |
| `PyText.ParseFloatDecimal` | main.py:141 | `float()` reads `a.b` as the decimal `a + b / 10^len(b)`. |
| `QualityScore.BitrateFactor` | main.py:143 | The bitrate factor is the bitrate when it is positive, and 1 otherwise. |
| `QualityScore.StreamFieldsRoundTrip` | main.py:134-137 | The `w,h,b` line ffprobe prints for any three integers, with its newline, is read back as those three integers. |
| `QualityScore.DurationRoundTrip` | main.py:139-141 | The duration line `s.micros` is read back as `s + micros / 10^6`. |
| `QualityScore.ScoreZeroOnProbeFailure` | main.py:131-145 | The score is 0 when a probe raises, when the stream line is not exactly three integers, or when the duration does not parse. |
| `QualityScore.EmptyOutputFails` | main.py:135-137 | Empty ffprobe output, as for a path where no file is, does not unpack into three fields: the probe counts as failed and the score is 0. |
| `QualityScore.UnknownBitrateFails` | main.py:134-136 | A stream line whose bit rate is `N/A` does not convert with `int()`, whatever its width and height: the probe counts as failed. |
| `QualityScore.NotApplicableNotInt` | main.py:136 | `int("N/A")` raises. |
| `QualityScore.ThirdFieldUnreadable` | main.py:136 | A stream line of three pieces whose last does not convert with `int()` raises on the unpack. |
| `QualityScore.ScoreOfReadProbes` | main.py:137-143 | When both probes parse, the score is width times height times duration times the bitrate factor. |
| `QualityScore.ScoreNonNegative` | main.py:137-145 | A non-negative width, height and duration give a non-negative score. |
| `QualityScore.ScoreOfProbeOutput` | main.py:131-145 | Probe output read end to end gives the score `w * h * (s + micros / 10^6) * factor(b)`. |
| `Ranking.StrLessTransitive` | main.py:151 | Python's string `<` is transitive. |
| `Ranking.StrLessTotal` | main.py:151 | Python's string `<` orders any two distinct strings. |
| `Ranking.BeforeTotal` | main.py:151 | Any two distinct `(score, path)` tuples are ordered one way or the other. |
| `Ranking.BeforeAsymmetric` | main.py:151 | The tuple order is asymmetric. |
| `Ranking.SortDescending` | main.py:151 | The sort is a permutation of its input. |
| `Ranking.SortDescendingSorts` | main.py:151 | The sort gives a descending permutation of its input. |
| `Ranking.DescendingUnique` | main.py:151 | Two descending arrangements of one multiset of tuples are equal, so Python's sort and the model's sort agree. |
| `Ranking.HeadIsGreatest` | main.py:151-152 | The head of the sorted list is an entry that every other entry follows. |
| `DuplicateResolution.KeeperIsBest` | main.py:151-152 | The kept video is in the group. Every other member has a lower score, or the same score and a smaller path. |
| `DuplicateResolution.RankedEntries` | main.py:151 | Every sorted entry is a member of the group. |
| `DuplicateResolution.RankedCovers` | main.py:151 | Every member of the group has a sorted entry. |
| `DuplicateResolution.RankedPathsDistinct` | main.py:151 | A group without repeats sorts to entries with distinct paths. |
| `DuplicateResolution.TransfersAt` | main.py:155-157 | The i-th planned move takes the i-th entry's path to its destination. |
| `DuplicateResolution.AttemptFollowsPlan` | main.py:155-158 | Moves are attempted in plan order, each with the planned source and destination. |
| `DuplicateResolution.AttemptOutcomes` | main.py:156-160 | Each attempt's outcome is the mover's verdict given the attempts before it. A failure is caught and the later moves still run. |
| `DuplicateResolution.MoveAllButFirst` | main.py:154-160 | The move loop attempts exactly the planned moves of every entry after the head, in order. |
| `DuplicateResolution.ScoredAfterEarlierMoves` | main.py:147-158 | Group n is scored by probes that see every move attempted for the groups before it. Building the plan group by group gives the plan of the first n groups, each under its own scores. |
| `DuplicateResolution.ProcessDuplicates` | main.py:129-160 | The group loop attempts exactly the moves of the plan, with destinations in the duplicates directory. Each group is ranked by probes run after the earlier groups' moves were attempted. |
| `DuplicateResolution.GroupPlanMovesAllButKeeper` | main.py:147-158 | With keep_best set, a group of n distinct videos plans exactly n-1 moves. Each move goes to its source's destination, and the sources are exactly the non-keepers, each once. |
| `DuplicateResolution.ProbeFailureLoses` | main.py:144-151 | A video whose probe fails when its group is scored (a probe raises, prints nothing, or prints a line that does not unpack or convert) is not kept while another member scores above 0. |
| `DuplicateResolution.KeepBestOffMovesNothing` | main.py:154 | With keep_best false, nothing is moved. |
| `DuplicateResolution.PlanMembership` | main.py:147-160 | The whole plan is exactly the moves planned for the groups, in dict order. |
| `DuplicateResolution.PlanSourcesDistinct` | main.py:147-158 | When the groups are disjoint and repeat-free, no video is moved twice. |
| `DuplicateResolution.MovedIsNonKeeper` | main.py:147-158 | Every planned move goes to its source's destination. It takes a member of a group of two or more that is not the keeper under that group's own scores. |
| `DuplicateResolution.MovesTakeListedVideos` | main.py:147-158 | When every group lists distinct videos of a given set, every move takes a video of that set to its destination. |
| `DuplicateResolution.NonKeeperIsMoved` | main.py:147-158 | In every group of two or more distinct videos, every member other than the keeper under that group's scores is moved. |
| `DuplicateResolution.KeeperNeverMoved` | main.py:147-158 | When the groups are disjoint and repeat-free, a moved video's group has two or more members and the video is not its keeper. |
| `DuplicateResolution.MovedAwayNotKept` | main.py:144-158 | A member whose probe fails after the earlier groups' moves (a probe raises, prints nothing as it does for a file one of them moved away, or prints a line that does not unpack or convert) is not kept while another member scores above 0. Its move is attempted again. |
| `DuplicateResolution.TiePathsOrdered` | main.py:151 | `D:\new\a.mp4` sorts below `D:\new\b.mp4`. |
| `DuplicateResolution.TieKeeper` | main.py:151-152 | When two videos tie on score, the larger path is kept. |
| `DuplicateResolution.TieKeepsLarger` | main.py:151-158 | When two videos tie on score, the larger path is kept and only the smaller one is moved. |
| `DuplicateResolution.TieKeepsLargerPath` | main.py:144-158 | Two videos that cannot be probed at that point both score 0, and the one with the larger path is kept, not the one discovered first. |
| `Pipeline.Deduplicate` | main.py:163-166 | The main block chains the scan of the configured directories, the grouping at threshold 0.95 and the moves into `D:\vid-duplicated` with keep_best on, each group probed after the earlier groups' moves. Each stage's result is its specification. |
| `Pipeline.MovesTakeNonKeepers` | main.py:147-166 | Every move takes an embedded video into the duplicates directory under its own file name. In every group of two or more, every member other than the keeper under that group's scores is moved. |
| `Pipeline.NoVideoMovedTwice` | main.py:111-166 | With a symmetric similarity, no video is moved twice, and a moved video is a non-keeper of every group it is in. |
| `Pipeline.MovedVideosWereAccepted` | main.py:93-166 | A moved video was listed by the scan and accepted there: its frame was extracted and embedded. |

## Left out

- The CLIP model, its preprocessing and the torch device (main.py:31, 36-37, 99-101) are the `Encoder` oracle. `CLIP_MODEL` does not appear in the model.
- Cosine similarity (main.py:119-121) is the `Similarity` oracle. It is floating point, and the model makes no claim about its values. Disjointness is proved under an explicit symmetry hypothesis.
- The ffmpeg and ffprobe subprocesses, their timeouts and PIL's `Image.frombytes`/`save` are oracles. They give outcomes and output text, not decoded images.
- `glob.glob` is an oracle giving the matches of each pattern in file-system order. The recursive `**` matching itself is not modelled.
- `os.makedirs` (main.py:40-41) is not modelled: it is I/O at import time with no effect on the logic.
- `shutil.move` is an oracle giving success or failure. The model records the attempts and their outcomes. It does not model the files' new locations or overwrites at the destination.
- The failure message (main.py:160) and the tqdm progress bar are output only.
- ui.py is not part of this model. It holds Qt widgets with no deduplication logic.
- Python floats are exact reals in the model. It does not cover rounding, infinity, NaN (which would upset the sort), or the binary value of 0.95.
- `PyText.ParseFloat` does not accept `inf` or `nan`. ffprobe's duration line never has them, but a stray "nan" text would parse in Python.
- Unicode digits beyond ASCII are not accepted by `int()`/`float()` in the model; white space is trimmed with Python's full `str.isspace` set.
- `WinPaths` covers drive-letter paths; UNC paths (`\\server\share`) are not modelled.
- `WinPaths.FoldCase` folds the ASCII letters only. The file system's case table for other letters is not modelled.
- The file system is not modelled. `Probe` and `Mover` see the earlier move attempts and decide from them, for example whether a moved video can still be probed.
- `get_video_score` is still computed for every video when keep_best is false. Its only effect then is running ffprobe, so the model skips it.
- Python's `sorted` is modelled by an insertion sort. `Ranking.DescendingUnique` shows that every correct descending sort gives the same list.
