/** `extract_frame` (main.py): grab one still image of a video, trying three
    seek offsets and then a raw-decode fallback. The ffmpeg runs, the image
    re-encoding and the file system are oracles; what is modelled is the order
    of the attempts, the success test and the value returned. */
module FrameExtraction {

  /** The output image file: absent, or present with its bytes
      (`os.path.getsize` is their count). */
  datatype FileState = Absent | Present(bytes: seq<bv8>)

  /** One seek attempt: whether `subprocess.run(..., check=True, timeout=10)`
      returned (false when ffmpeg exits non-zero, times out or cannot start,
      all of which raise) and the state of the output file afterwards. */
  datatype SeekRun = SeekRun(returned: bool, after: FileState)

  /** The raw-decode fallback: the ffmpeg run raised; it returned with empty
      stdout; or it returned pixels, which were decoded and saved as JPEG
      (`saved` is false when `Image.frombytes` or `save` raised, leaving the
      file as `after`). The first two leave the output file alone, since ffmpeg
      writes to stdout there. */
  datatype RawRun = RawRaised | RawEmpty | RawFrame(saved: bool, after: FileState)

  /** The Python value returned: `True`, `False`, or `None` when the fallback
      returned empty stdout and control falls off the end of the function. */
  datatype Outcome = ReturnedTrue | ReturnedFalse | ReturnedNone
  {
    /** Python truthiness, which is all `process_videos` looks at. */
    predicate Truthy()
    {
      ReturnedTrue?
    }
  }

  /** The seek offsets, in the order they are tried. */
  const SeekTimes: seq<string> := ["00:05:00", "00:02:00", "00:10:00"]

  /** The oracle for the seek attempts: run at a seek offset, given the output
      file's state before the run. */
  type Seeker = (string, FileState) -> SeekRun

  /** `os.path.exists(output_path) and os.path.getsize(output_path) > 0`. */
  predicate NonEmpty(f: FileState)
  {
    f.Present? && |f.bytes| > 0
  }

  /** Everything one call determines: the value returned, the seek offsets
      tried (in order), whether the fallback ran, and the output file after. */
  datatype Extraction = Extraction(outcome: Outcome, tried: seq<string>, fallback: bool, file: FileState)

  /** The output file's state after the first `k` seek attempts. */
  function FileAfter(seek: Seeker, file0: FileState, k: nat): FileState
    requires k <= |SeekTimes|
  {
    if k == 0 then file0 else seek(SeekTimes[k - 1], FileAfter(seek, file0, k - 1)).after
  }

  /** Attempt `k` succeeds: the run returned and then the output file exists
      and is not empty. The test reads the file, whoever wrote it. */
  predicate Succeeds(seek: Seeker, file0: FileState, k: nat)
    requires k < |SeekTimes|
  {
    var run := seek(SeekTimes[k], FileAfter(seek, file0, k));
    run.returned && NonEmpty(run.after)
  }

  /** The first successful attempt at index `k` or later, or 3 if none. */
  function FirstSuccess(seek: Seeker, file0: FileState, k: nat): (r: nat)
    requires k <= |SeekTimes|
    ensures k <= r <= |SeekTimes|
    ensures r < |SeekTimes| ==> Succeeds(seek, file0, r)
    ensures forall i :: k <= i < r ==> !Succeeds(seek, file0, i)
    decreases |SeekTimes| - k
  {
    if k == |SeekTimes| then k
    else if Succeeds(seek, file0, k) then k
    else FirstSuccess(seek, file0, k + 1)
  }

  /** Reference definition of one call: the first successful seek wins;
      only when all three fail does the fallback run. */
  function Extract(seek: Seeker, raw: RawRun, file0: FileState): Extraction
  {
    var i := FirstSuccess(seek, file0, 0);
    if i < |SeekTimes| then Extraction(ReturnedTrue, SeekTimes[..i + 1], false, FileAfter(seek, file0, i + 1))
    else
      var f := FileAfter(seek, file0, |SeekTimes|);
      match raw
      case RawRaised => Extraction(ReturnedFalse, SeekTimes, true, f)
      case RawEmpty => Extraction(ReturnedNone, SeekTimes, true, f)
      case RawFrame(saved, after) => Extraction(if saved then ReturnedTrue else ReturnedFalse, SeekTimes, true, after)
  }

  /** `extract_frame` itself: a loop over the seek offsets with an early
      return, then the fallback. */
  method ExtractFrame(seek: Seeker, raw: RawRun, file0: FileState)
    returns (outcome: Outcome, tried: seq<string>, fallback: bool, file: FileState)
    ensures Extraction(outcome, tried, fallback, file) == Extract(seek, raw, file0)
  {
    file := file0;
    tried := [];
    fallback := false;
    for k := 0 to |SeekTimes|
      invariant tried == SeekTimes[..k]
      invariant file == FileAfter(seek, file0, k)
      invariant FirstSuccess(seek, file0, 0) == FirstSuccess(seek, file0, k)
    {
      var seekTime := SeekTimes[k];
      tried := tried + [seekTime];
      var run := seek(seekTime, file);
      file := run.after;
      if run.returned && NonEmpty(file) {
        outcome := ReturnedTrue;
        return;
      }
    }
    fallback := true;
    match raw {
      case RawRaised =>
        outcome := ReturnedFalse;
      case RawEmpty =>
        outcome := ReturnedNone;
      case RawFrame(saved, after) =>
        file := after;
        outcome := if saved then ReturnedTrue else ReturnedFalse;
    }
  }

  /** The offsets tried are a non-empty prefix of 5 min, 2 min, 10 min; every
      attempt before the last one tried failed; the call returns `True`
      without the fallback exactly when the last one tried succeeded. */
  lemma SeeksInOrderFirstSuccessWins(seek: Seeker, raw: RawRun, file0: FileState)
    ensures var x := Extract(seek, raw, file0);
      && 1 <= |x.tried| <= 3
      && x.tried == ["00:05:00", "00:02:00", "00:10:00"][..|x.tried|]
      && (forall k :: 0 <= k < |x.tried| - 1 ==> !Succeeds(seek, file0, k))
      && (!x.fallback <==> Succeeds(seek, file0, |x.tried| - 1))
      && (!x.fallback ==> x.outcome == ReturnedTrue)
  {
  }

  /** The fallback runs if and only if all three seek attempts fail, and then
      its result decides: a raise gives `False`, empty stdout gives `None`,
      a decoded and saved frame gives `True`. */
  lemma FallbackOnlyAfterAllSeeksFail(seek: Seeker, raw: RawRun, file0: FileState)
    ensures var x := Extract(seek, raw, file0);
      && (x.fallback <==> forall k :: 0 <= k < 3 ==> !Succeeds(seek, file0, k))
      && (x.fallback ==> x.tried == SeekTimes)
      && (x.fallback && raw.RawRaised? ==> x.outcome == ReturnedFalse)
      && (x.fallback && raw.RawEmpty? ==> x.outcome == ReturnedNone && !x.outcome.Truthy())
      && (x.fallback && raw.RawFrame? ==> (x.outcome.Truthy() <==> raw.saved))
  {
  }

  /** Truthiness of the result: some seek attempt succeeded, or the fallback
      saved a frame. */
  lemma TruthyIff(seek: Seeker, raw: RawRun, file0: FileState)
    ensures Extract(seek, raw, file0).outcome.Truthy()
        <==> (exists k :: 0 <= k < 3 && Succeeds(seek, file0, k)) || (raw.RawFrame? && raw.saved)
  {
    var i := FirstSuccess(seek, file0, 0);
    if i < 3 {
      assert Succeeds(seek, file0, i);
    }
  }

  /** The success test looks at the file, not at what the attempt wrote: a
      non-empty image left at the output path beforehand is accepted by the
      first seek attempt that returns without touching it. */
  lemma StaleImageAccepted(seek: Seeker, raw: RawRun, file0: FileState)
    requires NonEmpty(file0)
    requires seek("00:05:00", file0) == SeekRun(true, file0)
    ensures Extract(seek, raw, file0) == Extraction(ReturnedTrue, ["00:05:00"], false, file0)
  {
    assert Succeeds(seek, file0, 0);
    assert SeekTimes[..1] == ["00:05:00"];
  }
}
