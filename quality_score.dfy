/** `get_video_score` (main.py, nested in `process_duplicates`): rank a video
    by resolution, duration and bit rate read from two ffprobe runs. The ffprobe
    runs are oracles giving their stdout, or None when `subprocess.run` raised;
    scores are exact reals rather than Python floats. */
module QualityScore {
  import opened Basics
  import opened PyText

  /** `w, h, b = map(int, out.strip().split(","))`: exactly three pieces, each
      one accepted by `int()`; None where Python raises `ValueError`. */
  function StreamFields(out: string): Option<(int, int, int)>
  {
    var pieces := Split(Strip(out), ',');
    if |pieces| != 3 then None
    else
      var w, h, b := ParseInt(pieces[0]), ParseInt(pieces[1]), ParseInt(pieces[2]);
      if w.None? || h.None? || b.None? then None else Some((w.value, h.value, b.value))
  }

  /** The bit-rate factor: the bit rate if positive, otherwise 1. */
  function BitrateFactor(bitrate: int): (f: int)
    ensures f >= 1
    ensures bitrate > 0 ==> f == bitrate
    ensures bitrate <= 0 ==> f == 1
  {
    if bitrate > 0 then bitrate else 1
  }

  /** `width * height * duration * factor`, the score of a probed video. */
  function Product(width: int, height: int, duration: real, bitrate: int): real
  {
    (width * height) as real * duration * BitrateFactor(bitrate) as real
  }

  /** `get_video_score`: the product of the probed values, or 0 when either
      probe raises, the stream line is not three integers or the duration is
      not a number (every exception is caught and gives 0). */
  function VideoScore(stream: Option<string>, duration: Option<string>): real
  {
    if stream.None? then 0.0
    else
      match StreamFields(stream.value)
      case None => 0.0
      case Some(fields) =>
        if duration.None? then 0.0
        else
          match ParseFloat(duration.value)
          case None => 0.0
          case Some(d) => Product(fields.0, fields.1, d, fields.2)
  }

  /** The stream line ffprobe prints for `width,height,bit_rate` with
      `-of csv=p=0`, with its trailing newline. */
  function StreamLine(width: int, height: int, bitrate: int): string
  {
    IntText(width) + "," + IntText(height) + "," + IntText(bitrate) + "\n"
  }

  /** The duration line ffprobe prints: whole seconds, a point, six digits. */
  function DurationLine(seconds: nat, micros: string): string
  {
    NatText(seconds) + "." + micros + "\n"
  }

  /** Any three integers ffprobe prints are read back exactly. */
  lemma {:induction false} StreamFieldsRoundTrip(width: int, height: int, bitrate: int)
    ensures StreamFields(StreamLine(width, height, bitrate)) == Some((width, height, bitrate))
  {
    var a, b, c := IntText(width), IntText(height), IntText(bitrate);
    var line := a + "," + b + "," + c;
    assert StreamLine(width, height, bitrate) == line + "\n";
    assert line[0] == a[0] && line[|line| - 1] == c[|c| - 1];
    StripNewline(line);
    SplitThree(a, b, c);
    ParseIntText(width);
    ParseIntText(height);
    ParseIntText(bitrate);
  }

  /** Three comma-free pieces joined by commas split back into them. */
  lemma SplitThree(a: string, b: string, c: string)
    requires ',' !in a && ',' !in b && ',' !in c
    ensures Split(a + "," + b + "," + c, ',') == [a, b, c]
  {
    assert JoinWith([a, b, c], ',') == a + "," + b + "," + c by {
      assert [a, b, c][..2] == [a, b];
      assert [a, b][..1] == [a];
      assert JoinWith([a], ',') == a;
      assert JoinWith([a, b], ',') == a + [','] + b;
    }
    SplitJoin([a, b, c], ',');
  }

  /** A line with no white space at its ends, followed by a newline, strips
      to the line. */
  lemma StripNewline(line: string)
    requires line != [] && !IsSpace(line[0]) && !IsSpace(line[|line| - 1])
    ensures Strip(line + "\n") == line
  {
    var t := line + "\n";
    assert t[0] == line[0];
    assert t[..|t| - 1] == line;
  }

  /** A probe raised, or printed something `get_video_score` cannot unpack or
      convert: ffprobe does not raise when it fails, it prints nothing. */
  predicate ProbeFailed(stream: Option<string>, duration: Option<string>)
  {
    || stream.None? || StreamFields(stream.value).None?
    || duration.None? || ParseFloat(duration.value).None?
  }

  /** Any probe that raises or prints something unreadable gives score 0. */
  lemma ScoreZeroOnProbeFailure(stream: Option<string>, duration: Option<string>)
    requires ProbeFailed(stream, duration)
    ensures VideoScore(stream, duration) == 0.0
  {
  }

  /** ffprobe run on a path where no file is (a video an earlier group moved
      away) prints nothing: the empty text strips and splits to one piece,
      which does not unpack into three fields, so the video scores 0. */
  lemma EmptyOutputFails(duration: Option<string>)
    ensures StreamFields("") == None
    ensures ProbeFailed(Some(""), duration) && VideoScore(Some(""), duration) == 0.0
  {
    assert Strip("") == "";
    assert Split("", ',') == [""];
  }

  /** A bit rate ffprobe prints as `N/A` does not convert with `int()`,
      whatever the other two fields are: the probe counts as failed, so the
      video scores 0 (`ScoreZeroOnProbeFailure`). */
  lemma UnknownBitrateFails(width: string, height: string, duration: Option<string>)
    requires ',' !in width && ',' !in height
    requires width != [] && !IsSpace(width[0])
    ensures var out := width + "," + height + "," + "N/A" + "\n";
      StreamFields(out) == None && ProbeFailed(Some(out), duration)
  {
    var line := width + "," + height + "," + "N/A";
    assert Strip(line + "\n") == line by {
      assert line[0] == width[0] && line[|line| - 1] == 'A';
      StripNewline(line);
    }
    SplitThree(width, height, "N/A");
    NotApplicableNotInt();
    ThirdFieldUnreadable(line + "\n");
  }

  /** Three pieces, the last not accepted by `int()`: the unpack raises. */
  lemma ThirdFieldUnreadable(out: string)
    requires var pieces := Split(Strip(out), ','); |pieces| == 3 && ParseInt(pieces[2]).None?
    ensures StreamFields(out) == None
  {
  }

  /** `int("N/A")` raises. */
  lemma NotApplicableNotInt()
    ensures ParseInt("N/A") == None
  {
    var t := "N/A";
    assert t[0] == 'N' && t[|t| - 1] == 'A';
    assert SignedInt(t) == None by {
      assert Unsigned(t) == t;
      assert !IsDigit(t[|t| - 1]);
    }
    StripUntrimmed(t);
  }

  /** Both probes read: the score is the product of what they printed. */
  lemma ScoreOfReadProbes(stream: Option<string>, duration: Option<string>)
    requires stream.Some? && StreamFields(stream.value).Some?
    requires duration.Some? && ParseFloat(duration.value).Some?
    ensures var f, d := StreamFields(stream.value).value, ParseFloat(duration.value).value;
      VideoScore(stream, duration) == Product(f.0, f.1, d, f.2)
  {
  }

  /** Non-negative width, height and duration give a non-negative score. */
  lemma ScoreNonNegative(stream: Option<string>, duration: Option<string>)
    requires stream.Some? && StreamFields(stream.value).Some?
    requires var f := StreamFields(stream.value).value; f.0 >= 0 && f.1 >= 0
    requires duration.Some? && ParseFloat(duration.value).Some? ==> ParseFloat(duration.value).value >= 0.0
    ensures VideoScore(stream, duration) >= 0.0
  {
    if duration.Some? && ParseFloat(duration.value).Some? {
      var f, d := StreamFields(stream.value).value, ParseFloat(duration.value).value;
      ScoreOfReadProbes(stream, duration);
      ProductNonNegative(f.0, f.1, d, f.2);
    }
  }

  /** Non-negative width, height and duration give a non-negative product;
      the bit-rate factor is at least 1 whatever the bit rate. */
  lemma ProductNonNegative(width: int, height: int, duration: real, bitrate: int)
    requires width >= 0 && height >= 0 && duration >= 0.0
    ensures Product(width, height, duration, bitrate) >= 0.0
  {
    var area := width * height;
    assert area >= 0 by {
      if width > 0 {
        assert area >= 0 * height;
      }
    }
    var x := area as real * duration;
    assert x >= 0.0;
    var f := BitrateFactor(bitrate) as real;
    assert x * f >= 0.0;
  }

  /** The duration line ffprobe prints reads back as seconds plus the
      fraction. */
  lemma DurationRoundTrip(seconds: nat, micros: string)
    requires |micros| == 6 && forall c :: c in micros ==> IsDigit(c)
    ensures DigitGroup(micros).Some?
    ensures ParseFloat(DurationLine(seconds, micros)) == Some(Decimal(seconds, DigitGroup(micros).value, 6))
  {
    var text := NatText(seconds) + "." + micros;
    DurationLineStrips(seconds, micros);
    SameStripSameFloat(DurationLine(seconds, micros), text);
    ParseFloatDecimal(seconds, micros);
  }

  /** The duration line strips to itself without its newline. */
  lemma DurationLineStrips(seconds: nat, micros: string)
    requires |micros| == 6 && forall c :: c in micros ==> IsDigit(c)
    ensures Strip(DurationLine(seconds, micros)) == Strip(NatText(seconds) + "." + micros)
  {
    var text := NatText(seconds) + "." + micros;
    assert text[0] == NatText(seconds)[0] && text[|text| - 1] == micros[5];
    assert NatText(seconds)[0] in NatText(seconds) && micros[5] in micros;
    StripNewline(text);
    StripUntrimmed(text);
    assert DurationLine(seconds, micros) == text + "\n";
  }

  /** `float()` only sees the stripped text. */
  lemma SameStripSameFloat(x: string, y: string)
    requires Strip(x) == Strip(y)
    ensures ParseFloat(x) == ParseFloat(y)
  {
  }

  /** ffprobe output read end to end: the score of a video whose probes print
      `w,h,b` and `s.micros` is w * h * (s + micros / 10^6) * factor(b). */
  lemma {:induction false} ScoreOfProbeOutput(width: int, height: int, bitrate: int, seconds: nat, micros: string)
    requires |micros| == 6 && forall c :: c in micros ==> IsDigit(c)
    ensures DigitGroup(micros).Some?
    ensures VideoScore(Some(StreamLine(width, height, bitrate)), Some(DurationLine(seconds, micros)))
         == Product(width, height, Decimal(seconds, DigitGroup(micros).value, 6), bitrate)
  {
    StreamFieldsRoundTrip(width, height, bitrate);
    DurationRoundTrip(seconds, micros);
    ScoreOfReadProbes(Some(StreamLine(width, height, bitrate)), Some(DurationLine(seconds, micros)));
  }
}
