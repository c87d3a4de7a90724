/** `process_videos` (main.py): list the videos of the source directories,
    grab a frame of each into the frame directory and embed it. Directory
    listing, the CLIP model and the image decoder are oracles; the frame
    directory's files are threaded from video to video, since the frame path
    depends only on the video's file name. */
module VideoScan {
  import opened Basics
  import opened OrderedDicts
  import opened WinPaths
  import opened FrameExtraction

  /** `FRAME_DIR`. */
  const FrameDir: Path := "D:\\vid-frame"

  /** `glob.glob(pattern, recursive=True)`: the files matching a pattern, in
      the order the file system lists them. */
  type Glob = Path -> seq<Path>

  /** `os.path.join(dir_path, "**", "*.mp4")`. */
  function Mp4Pattern(dir: Path): Path
  {
    Join(Join(dir, "**"), "*.mp4")
  }

  /** `os.path.join(dir_path, "**", "*.ts")`. */
  function TsPattern(dir: Path): Path
  {
    Join(Join(dir, "**"), "*.ts")
  }

  /** What one directory adds to `video_files`: its `.mp4` matches, then its
      `.ts` matches. */
  function DirVideos(dir: Path, glob: Glob): seq<Path>
  {
    glob(Mp4Pattern(dir)) + glob(TsPattern(dir))
  }

  /** The contributions of the directories, in order. */
  function DirBlocks(dirs: seq<Path>, glob: Glob): (r: seq<seq<Path>>)
    ensures |r| == |dirs|
  {
    seq(|dirs|, i requires 0 <= i < |dirs| => DirVideos(dirs[i], glob))
  }

  /** `video_files` once the directory loop is done. */
  function VideoFiles(dirs: seq<Path>, glob: Glob): seq<Path>
  {
    Concat(DirBlocks(dirs, glob))
  }

  /** The directory loop of `process_videos`. */
  method CollectVideoFiles(dirs: seq<Path>, glob: Glob) returns (videoFiles: seq<Path>)
    ensures videoFiles == VideoFiles(dirs, glob)
  {
    ghost var blocks := DirBlocks(dirs, glob);
    videoFiles := [];
    for n := 0 to |dirs|
      invariant videoFiles == Concat(blocks[..n])
    {
      var dirPath := dirs[n];
      ConcatSnoc(blocks, n);
      assert blocks[n] == glob(Mp4Pattern(dirPath)) + glob(TsPattern(dirPath));
      videoFiles := videoFiles + glob(Mp4Pattern(dirPath));
      videoFiles := videoFiles + glob(TsPattern(dirPath));
    }
    assert blocks[..|dirs|] == blocks;
  }

  /** One more directory appends its `.mp4` matches and then its `.ts`
      matches: the scan keeps the directories' order. */
  lemma VideoFilesAppend(dirs: seq<Path>, dir: Path, glob: Glob)
    ensures VideoFiles(dirs + [dir], glob)
         == VideoFiles(dirs, glob) + glob(Mp4Pattern(dir)) + glob(TsPattern(dir))
  {
    var blocks := DirBlocks(dirs + [dir], glob);
    ConcatSnoc(blocks, |dirs|);
    assert blocks[..|dirs|] == DirBlocks(dirs, glob);
    assert blocks[..|dirs| + 1] == blocks;
  }

  /** A file is listed exactly when one of the directories' patterns matches
      it. */
  lemma VideoFilesFromDirs(dirs: seq<Path>, glob: Glob)
    ensures forall p :: p in VideoFiles(dirs, glob) <==>
      exists i :: 0 <= i < |dirs| && (p in glob(Mp4Pattern(dirs[i])) || p in glob(TsPattern(dirs[i])))
  {
    var blocks := DirBlocks(dirs, glob);
    assert forall i :: 0 <= i < |blocks| ==> blocks[i] == glob(Mp4Pattern(dirs[i])) + glob(TsPattern(dirs[i]));
    forall p
      ensures p in Concat(blocks) <==> exists i :: 0 <= i < |dirs| && p in blocks[i]
    {
      ConcatMembership(blocks, p);
    }
  }

  /** `os.path.join(FRAME_DIR, os.path.splitext(filename)[0] + ".jpg")`. */
  function FramePath(video: Path): Path
  {
    Join(FrameDir, Stem(Basename(video)) + ".jpg")
  }

  /** The ffmpeg seek runs on each video. */
  type Seekers = Path -> Seeker

  /** The raw-decode fallback run on each video. */
  type RawRuns = Path -> RawRun

  /** `preprocess` and `model.encode_image` on an image file's bytes: the
      embedding, or nothing when decoding or encoding raises. */
  type Encoder = seq<bv8> -> Option<Embedding>

  /** `extract_frame` on each video, given the state of its output file. */
  type Extractor = (Path, FileState) -> Extraction

  /** The extractor the ffmpeg runs determine. */
  function ExtractorOf(seek: Seekers, raw: RawRuns): Extractor
  {
    (video, file0) => Extract(seek(video), raw(video), file0)
  }

  /** The files of the frame directory, keyed by their case-folded path,
      since Windows names ignore case (a key not mapped is absent). */
  type Frames = map<Path, FileState>

  /** The file a path names. */
  function FileAt(frames: Frames, p: Path): FileState
  {
    var k := FoldCase(p);
    if k in frames then frames[k] else Absent
  }

  /** The embedding of the frame file: `Image.open` raises on a missing file. */
  function Embed(encoder: Encoder, f: FileState): Option<Embedding>
  {
    if f.Present? then encoder(f.bytes) else None
  }

  /** The work done on each video: how its frame is extracted, where the
      frame goes, and how the frame is embedded. */
  datatype Stage = Stage(extract: Extractor, framePath: Path -> Path, encoder: Encoder)

  /** The stage `process_videos` runs. */
  function StageOf(seek: Seekers, raw: RawRuns, encoder: Encoder): Stage
  {
    Stage(ExtractorOf(seek, raw), FramePath, encoder)
  }

  /** The state the video loop carries: `video_embeddings` and the frame
      directory. */
  datatype Scan = Scan(embeddings: Dict<Embedding>, frames: Frames)

  /** The frame extraction a video gets in state `s`, on whatever file has
      its frame path. */
  function VisitExtraction(st: Stage, s: Scan, video: Path): Extraction
  {
    st.extract(video, FileAt(s.frames, st.framePath(video)))
  }

  /** The video gets an entry in state `s`: its extraction is truthy and its
      frame embeds. */
  predicate Accepts(st: Stage, s: Scan, video: Path)
  {
    var x := VisitExtraction(st, s, video);
    x.outcome.Truthy() && Embed(st.encoder, x.file).Some?
  }

  /** One iteration of the video loop: extract the frame (overwriting or
      reusing whatever file has the frame path), and record the embedding when
      the extraction is truthy and the embedding does not raise. */
  function Visit(st: Stage, s: Scan, video: Path): (r: Scan)
    requires s.embeddings.Valid()
    ensures r.embeddings.Valid()
  {
    var x := VisitExtraction(st, s, video);
    var frames := s.frames[FoldCase(st.framePath(video)) := x.file];
    if Accepts(st, s, video) then Scan(s.embeddings.Put(video, Embed(st.encoder, x.file).value), frames)
    else Scan(s.embeddings, frames)
  }

  /** What a visit does to `video_embeddings`: an accepted video is put with
      its frame's embedding, anything else leaves the dict as it was. */
  lemma VisitEmbeddings(st: Stage, s: Scan, video: Path)
    requires s.embeddings.Valid()
    ensures var d, d' := s.embeddings, Visit(st, s, video).embeddings;
      && (Accepts(st, s, video) ==>
            && d'.entries == d.entries[video := Embed(st.encoder, VisitExtraction(st, s, video).file).value]
            && d'.keys == if video in d.entries then d.keys else d.keys + [video])
      && (!Accepts(st, s, video) ==> d' == d)
  {
  }

  /** The state after the first `n` videos. */
  function ScanPrefix(videos: seq<Path>, st: Stage, frames0: Frames, n: nat): (r: Scan)
    requires n <= |videos|
    ensures r.embeddings.Valid()
  {
    if n == 0 then Scan(Empty(), frames0)
    else Visit(st, ScanPrefix(videos, st, frames0, n - 1), videos[n - 1])
  }

  /** Video `i` gets an entry when its turn comes. */
  predicate Accepted(videos: seq<Path>, st: Stage, frames0: Frames, i: nat)
    requires i < |videos|
  {
    Accepts(st, ScanPrefix(videos, st, frames0, i), videos[i])
  }

  /** `process_videos` itself: the directory loop, then the video loop. */
  method ProcessVideos(sourceDirs: seq<Path>, glob: Glob, seek: Seekers, raw: RawRuns, encoder: Encoder, frames0: Frames)
    returns (videoEmbeddings: Dict<Embedding>, frames: Frames)
    ensures var videos := VideoFiles(sourceDirs, glob);
      Scan(videoEmbeddings, frames) == ScanPrefix(videos, StageOf(seek, raw, encoder), frames0, |videos|)
  {
    var videoFiles := CollectVideoFiles(sourceDirs, glob);
    ghost var st := StageOf(seek, raw, encoder);
    videoEmbeddings := Empty();
    frames := frames0;
    for n := 0 to |videoFiles|
      invariant Scan(videoEmbeddings, frames) == ScanPrefix(videoFiles, st, frames0, n)
    {
      var videoPath := videoFiles[n];
      var filename := Basename(videoPath);
      var framePath := Join(FrameDir, Stem(filename) + ".jpg");
      assert framePath == st.framePath(videoPath);
      var outcome, tried, fallback, file := ExtractFrame(seek(videoPath), raw(videoPath), FileAt(frames, framePath));
      assert Extraction(outcome, tried, fallback, file) == st.extract(videoPath, FileAt(frames, framePath));
      frames := frames[FoldCase(framePath) := file];
      if outcome.Truthy() {
        var embedding := Embed(encoder, file);
        if embedding.Some? {
          videoEmbeddings := videoEmbeddings.Put(videoPath, embedding.value);
        }
      }
    }
  }

  /** A sequence that is unchanged or grows by `x` stays a subsequence of one
      that grows by `x`. */
  lemma SubsequenceStep(a: seq<Path>, a': seq<Path>, b: seq<Path>, x: Path)
    requires Subsequence(a, b) && (a' == a || a' == a + [x])
    ensures Subsequence(a', b + [x])
  {
    if a' == a {
      SubsequenceExtend(a, b, x);
    } else {
      SubsequenceAppendBoth(a, b, x);
    }
  }

  /** The embedded videos keep the scan order. */
  lemma {:induction false} KeysInScanOrder(videos: seq<Path>, st: Stage, frames0: Frames, n: nat)
    requires n <= |videos|
    ensures Subsequence(ScanPrefix(videos, st, frames0, n).embeddings.keys, videos[..n])
  {
    if n > 0 {
      KeysInScanOrder(videos, st, frames0, n - 1);
      var s := ScanPrefix(videos, st, frames0, n - 1);
      var v := videos[n - 1];
      VisitEmbeddings(st, s, v);
      assert videos[..n] == videos[..n - 1] + [v];
      SubsequenceStep(s.embeddings.keys, ScanPrefix(videos, st, frames0, n).embeddings.keys, videos[..n - 1], v);
    }
  }

  /** A visit only adds entries, and an entry it adds is the visited video's,
      accepted. */
  lemma ScanStep(videos: seq<Path>, st: Stage, frames0: Frames, n: nat)
    requires 0 < n <= |videos|
    ensures var d, d' := ScanPrefix(videos, st, frames0, n - 1).embeddings, ScanPrefix(videos, st, frames0, n).embeddings;
      && d.entries.Keys <= d'.entries.Keys
      && (forall v :: v in d'.entries && v !in d.entries ==> v == videos[n - 1])
      && (forall v :: v in d.entries && v != videos[n - 1] ==> d'.entries[v] == d.entries[v])
      && (videos[n - 1] in d'.entries <==> videos[n - 1] in d.entries || Accepted(videos, st, frames0, n - 1))
  {
    VisitEmbeddings(st, ScanPrefix(videos, st, frames0, n - 1), videos[n - 1]);
  }

  /** A video accepted at step `i` is embedded after every later step. */
  lemma {:induction false} AcceptedIsKept(videos: seq<Path>, st: Stage, frames0: Frames, n: nat, i: nat)
    requires i < n <= |videos| && Accepted(videos, st, frames0, i)
    ensures videos[i] in ScanPrefix(videos, st, frames0, n).embeddings.entries
  {
    ScanStep(videos, st, frames0, n);
    if i < n - 1 {
      AcceptedIsKept(videos, st, frames0, n - 1, i);
    }
  }

  /** Every embedded video was accepted at some step. */
  lemma {:induction false} KeyWasAccepted(videos: seq<Path>, st: Stage, frames0: Frames, n: nat, v: Path)
    requires n <= |videos| && v in ScanPrefix(videos, st, frames0, n).embeddings.entries
    ensures exists i :: 0 <= i < n && videos[i] == v && Accepted(videos, st, frames0, i)
  {
    ScanStep(videos, st, frames0, n);
    if v in ScanPrefix(videos, st, frames0, n - 1).embeddings.entries {
      KeyWasAccepted(videos, st, frames0, n - 1, v);
      var i :| 0 <= i < n - 1 && videos[i] == v && Accepted(videos, st, frames0, i);
      assert 0 <= i < n;
    } else {
      assert videos[n - 1] == v && Accepted(videos, st, frames0, n - 1);
    }
  }

  /** The embedded videos are exactly those accepted at some step. */
  lemma KeysAccepted(videos: seq<Path>, st: Stage, frames0: Frames, n: nat)
    requires n <= |videos|
    ensures forall v :: v in ScanPrefix(videos, st, frames0, n).embeddings.entries <==>
      exists i :: 0 <= i < n && videos[i] == v && Accepted(videos, st, frames0, i)
  {
    forall v
      ensures v in ScanPrefix(videos, st, frames0, n).embeddings.entries <==>
        exists i :: 0 <= i < n && videos[i] == v && Accepted(videos, st, frames0, i)
    {
      if v in ScanPrefix(videos, st, frames0, n).embeddings.entries {
        KeyWasAccepted(videos, st, frames0, n, v);
      }
      if exists i :: 0 <= i < n && videos[i] == v && Accepted(videos, st, frames0, i) {
        var i :| 0 <= i < n && videos[i] == v && Accepted(videos, st, frames0, i);
        AcceptedIsKept(videos, st, frames0, n, i);
      }
    }
  }

  /** For a list of distinct videos, an accepted video's entry is the
      embedding of the frame its own extraction left. */
  lemma {:induction false} EntryIsOwnEmbedding(videos: seq<Path>, st: Stage, frames0: Frames, n: nat, i: nat)
    requires i < n <= |videos| && Distinct(videos) && Accepted(videos, st, frames0, i)
    ensures var s := ScanPrefix(videos, st, frames0, i);
      var e := ScanPrefix(videos, st, frames0, n).embeddings.entries;
      videos[i] in e && Some(e[videos[i]]) == Embed(st.encoder, VisitExtraction(st, s, videos[i]).file)
  {
    if i == n - 1 {
      VisitEmbeddings(st, ScanPrefix(videos, st, frames0, i), videos[i]);
    } else {
      EntryIsOwnEmbedding(videos, st, frames0, n - 1, i);
      ScanStep(videos, st, frames0, n);
      assert videos[i] != videos[n - 1];
    }
  }

  /** In any state of the scan, a video none of whose seek attempts succeeds,
      and whose fallback does not save a frame, gets no entry. */
  lemma RejectedWithoutFrame(seek: Seekers, raw: RawRuns, st: Stage, s: Scan, video: Path)
    requires st.extract == ExtractorOf(seek, raw)
    requires forall k :: 0 <= k < 3 ==> !Succeeds(seek(video), FileAt(s.frames, st.framePath(video)), k)
    requires !(raw(video).RawFrame? && raw(video).saved)
    ensures !Accepts(st, s, video)
  {
    var file0 := FileAt(s.frames, st.framePath(video));
    assert VisitExtraction(st, s, video) == Extract(seek(video), raw(video), file0);
    TruthyIff(seek(video), raw(video), file0);
  }

  /** Two videos with the same frame path: when the second one's first seek
      returns without writing (a video shorter than five minutes, say) it
      accepts the frame the first one left, and both get the same embedding,
      which the grouping then sees as identical. */
  lemma StaleFrameShared(seek: Seekers, raw: RawRuns, st: Stage, s: Scan, first: Path, second: Path)
    requires s.embeddings.Valid() && st.extract == ExtractorOf(seek, raw)
    requires SameFile(st.framePath(first), st.framePath(second)) && Accepts(st, s, first)
    requires var f := VisitExtraction(st, s, first).file;
      NonEmpty(f) && seek(second)("00:05:00", f) == SeekRun(true, f)
    ensures var s1 := Visit(st, s, first);
      && Accepts(st, s1, second)
      && first in s1.embeddings.entries
      && second in Visit(st, s1, second).embeddings.entries
      && Visit(st, s1, second).embeddings.entries[second] == s1.embeddings.entries[first]
  {
    var f := VisitExtraction(st, s, first).file;
    var s1 := Visit(st, s, first);
    assert FileAt(s1.frames, st.framePath(second)) == f;
    StaleImageAccepted(seek(second), raw(second), f);
    assert VisitExtraction(st, s1, second) == Extract(seek(second), raw(second), f);
    VisitEmbeddings(st, s, first);
    VisitEmbeddings(st, s1, second);
  }

  /** The frame path of `stem.ext` in a directory on a drive: the base name
      is `stem.ext`, whose `splitext` stem is `stem`. */
  lemma FramePathOfFile(dir: Path, stem: string, ext: string)
    requires DriveLength(dir) == 2
    requires forall c :: c in stem ==> !IsSep(c) && c != ':'
    requires exists k :: 0 <= k < |stem| && stem[k] != '.'
    requires forall c :: c in ext ==> !IsSep(c) && c != ':' && c != '.'
    ensures FramePath(Join(dir, stem + "." + ext)) == Join(FrameDir, stem + ".jpg")
  {
    var name := stem + "." + ext;
    forall c | c in name
      ensures !IsSep(c) && c != ':'
    {
      var i :| 0 <= i < |name| && name[i] == c;
      if i < |stem| {
        assert c in stem;
      } else if i > |stem| {
        assert c == ext[i - |stem| - 1];
      }
    }
    BasenameOfName(name);
    BasenameOfJoin(dir, name);
    assert Basename(Join(dir, name)) == name;
    StemOfExtension(stem, ext);
  }

  /** `os.path.join(FRAME_DIR, name)`. */
  lemma JoinFrameDir(name: Path)
    ensures Join(FrameDir, name) == FrameDir + "\\" + name
  {
    var rest := FrameDir[DriveLength(FrameDir)..];
    assert rest == "\\vid-frame";
  }

  /** The case-folded path of the frame named after `stem`. */
  lemma FrameFileFolded(stem: string)
    ensures FoldCase(Join(FrameDir, stem + ".jpg")) == FoldCase(FrameDir + "\\") + FoldCase(stem) + FoldCase(".jpg")
  {
    var pre := FrameDir + "\\";
    JoinFrameDir(stem + ".jpg");
    assert pre + (stem + ".jpg") == (pre + stem) + ".jpg";
    FoldCaseAppend(pre + stem, ".jpg");
    FoldCaseAppend(pre, stem);
  }

  /** The case-folded frame path of `stem.ext` in a directory on a drive is
      the folded frame directory, the folded stem and `.jpg`. */
  lemma FramePathFolded(dir: Path, stem: string, ext: string)
    requires DriveLength(dir) == 2
    requires forall c :: c in stem ==> !IsSep(c) && c != ':'
    requires exists k :: 0 <= k < |stem| && stem[k] != '.'
    requires forall c :: c in ext ==> !IsSep(c) && c != ':' && c != '.'
    ensures FoldCase(FramePath(Join(dir, stem + "." + ext))) == FoldCase(FrameDir + "\\") + FoldCase(stem) + FoldCase(".jpg")
  {
    FramePathOfFile(dir, stem, ext);
    FrameFileFolded(stem);
  }

  /** Two files whose stems differ at most in case, in any two directories
      on drives, name one frame file whatever their extensions (`Clip.mp4`
      and `clip.ts`, say): whichever is scanned later starts from the frame
      the earlier one left. */
  lemma SameStemSameFrame(dir1: Path, dir2: Path, stem1: string, stem2: string, ext1: string, ext2: string)
    requires DriveLength(dir1) == 2 && DriveLength(dir2) == 2
    requires forall c :: c in stem1 ==> !IsSep(c) && c != ':'
    requires forall c :: c in stem2 ==> !IsSep(c) && c != ':'
    requires exists k :: 0 <= k < |stem1| && stem1[k] != '.'
    requires exists k :: 0 <= k < |stem2| && stem2[k] != '.'
    requires forall c :: c in ext1 ==> !IsSep(c) && c != ':' && c != '.'
    requires forall c :: c in ext2 ==> !IsSep(c) && c != ':' && c != '.'
    requires SameFile(stem1, stem2)
    ensures SameFile(FramePath(Join(dir1, stem1 + "." + ext1)), FramePath(Join(dir2, stem2 + "." + ext2)))
  {
    FramePathFolded(dir1, stem1, ext1);
    FramePathFolded(dir2, stem2, ext2);
  }
}
