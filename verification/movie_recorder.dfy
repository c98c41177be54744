/**
 * `movie_recorder.py`: a recorder that runs one `ffmpeg` process per segment
 * (each stopped by its own `-t` time limit), names every segment after the
 * wall clock and a running counter, and hands each good segment to an S3
 * uploader whose queue only accepts non-empty files.
 *
 * The clock, the subprocess and the file system are inputs: each loop pass is
 * told the timestamp it read, how `ffmpeg` ended, and what `os.path` reports
 * about the segment file afterwards.
 */
module MovieRecorder {
  import opened Text
  import opened Wrappers
  import opened Capture
  import WorkQueue

  // ---------------------------------------------------------------- configuration

  /** The settings the constructor stores; `outputDir` is already created. */
  datatype Config = Config(
    outputDir: String,
    segmentDuration: int,
    fps: int,
    quality: String,
    audioDevice: String)

  /** A segment counts as written only above this many bytes. */
  const MinSegmentBytes: nat := 1000

  // ---------------------------------------------------------------- segment names

  /** `movie_{timestamp}_{segment_count:03d}.mp4`. */
  function SegmentName(stamp: String, index: nat): (name: String)
    ensures IsPrefix("movie_", name) && IsSuffix(".mp4", name)
    ensures '/' !in stamp ==> '/' !in name
  {
    var digits := ZeroPad(index, 3);
    assert forall i :: 0 <= i < |digits| ==> digits[i] != '/';
    "movie_" + stamp + "_" + digits + ".mp4"
  }

  /** `str(self.output_dir / name)`. */
  function SegmentPath(cfg: Config, stamp: String, index: nat): String
  {
    JoinPath(cfg.outputDir, SegmentName(stamp, index))
  }

  /**
   * Reads a segment name back into its timestamp and index: the part between
   * `movie_` and `.mp4`, split at its last '_'.
   */
  function ParseSegmentName(name: String): (r: Option<(String, nat)>)
  {
    if |name| < 10 || !IsPrefix("movie_", name) || !IsSuffix(".mp4", name) then None
    else ParseStampIndex(name[6..|name| - 4])
  }

  /** `<stamp>_<digits>` with at least three digits after the last '_'. */
  function ParseStampIndex(middle: String): (r: Option<(String, nat)>)
  {
    var k := LastIndexOf(middle, '_');
    if k < 0 then None
    else
      var digits := middle[k + 1..];
      if |digits| < 3 || !AllDigits(digits) then None
      else Some((middle[..k], DecimalValue(digits)))
  }

  lemma ParseStampDigits(stamp: String, digits: String)
    requires AllDigits(digits) && |digits| >= 3
    ensures ParseStampIndex(stamp + ['_'] + digits) == Some((stamp, DecimalValue(digits)))
  {
    var middle := stamp + ['_'] + digits;
    assert '_' !in digits by {
      forall i | 0 <= i < |digits| ensures digits[i] != '_' {
        assert IsDigit(digits[i]);
      }
    }
    LastIndexOfAfter(stamp, '_', digits);
    assert middle[|stamp| + 1..] == digits;
    assert middle[..|stamp|] == stamp;
  }

  /** Parsing a name assembled from a timestamp and at least three digits. */
  lemma ParseAssembled(stamp: String, digits: String)
    requires AllDigits(digits) && |digits| >= 3
    ensures ParseSegmentName("movie_" + stamp + "_" + digits + ".mp4") == Some((stamp, DecimalValue(digits)))
  {
    var middle := stamp + ['_'] + digits;
    var name := "movie_" + stamp + "_" + digits + ".mp4";
    assert |name| >= 10 && IsPrefix("movie_", name) && IsSuffix(".mp4", name) && name[6..|name| - 4] == middle by {
      assert name == "movie_" + middle + ".mp4";
    }
    ParseStampDigits(stamp, digits);
  }

  /**
   * The name determines the segment: the timestamp and the counter can be read
   * back from it, whatever the timestamp and however large the counter.
   */
  lemma SegmentNameRoundTrip(stamp: String, index: nat)
    ensures ParseSegmentName(SegmentName(stamp, index)) == Some((stamp, index))
  {
    ParseAssembled(stamp, ZeroPad(index, 3));
  }

  /** Two segments get the same name only when both the timestamp and the index agree. */
  lemma SegmentNamesDistinct(stamp1: String, index1: nat, stamp2: String, index2: nat)
    requires (stamp1, index1) != (stamp2, index2)
    ensures SegmentName(stamp1, index1) != SegmentName(stamp2, index2)
  {
    SegmentNameRoundTrip(stamp1, index1);
    SegmentNameRoundTrip(stamp2, index2);
  }

  // ---------------------------------------------------------------- the ffmpeg command

  /** The options after the inputs, the same on every platform. */
  function EncodeArgs(cfg: Config): (r: seq<String>)
    ensures |r| == 16
    ensures r[0] == "-t" && r[1] == IntToString(cfg.segmentDuration)
    ensures r[6] == "-crf" && r[7] == Crf(cfg.quality)
  {
    ["-t", IntToString(cfg.segmentDuration),
     "-c:v", "libx264", "-preset", "veryfast", "-crf", Crf(cfg.quality),
     "-pix_fmt", "yuv420p", "-c:a", "aac", "-b:a", "128k", "-movflags", "+faststart"]
  }

  /** The capture inputs of each platform; `xdpyinfo` is consulted on linux only. */
  function InputArgs(cfg: Config, platform: String, xdpyinfo: Option<String>): (r: seq<String>)
    requires SupportedPlatform(platform)
    ensures |r| >= 8 && r[2] == "-framerate" && r[3] == IntToString(cfg.fps)
    ensures platform == "linux" ==> r[4] == "-video_size" && r[5] == LinuxResolution(xdpyinfo)
  {
    if platform == "darwin" then
      ["-f", "avfoundation", "-framerate", IntToString(cfg.fps), "-capture_cursor", "1",
       "-i", "1:" + cfg.audioDevice]
    else if platform == "linux" then
      ["-f", "x11grab", "-framerate", IntToString(cfg.fps), "-video_size", LinuxResolution(xdpyinfo),
       "-i", ":0.0", "-f", "pulse", "-i", "default"]
    else
      ["-f", "gdigrab", "-framerate", IntToString(cfg.fps), "-i", "desktop", "-f", "dshow",
       "-i", "audio=" + cfg.audioDevice]
  }

  /**
   * The argument vector `_record_segment` hands to `Popen`, or the
   * `RuntimeError` for a platform it has no capture device for.
   */
  function SegmentCommand(cfg: Config, platform: String, xdpyinfo: Option<String>, outputFile: String): (r: Result<seq<String>>)
    ensures r.Err? <==> !SupportedPlatform(platform)
    ensures r.Err? ==> r.error == UnsupportedPlatform(platform)
    ensures r.Ok? ==> |r.value| > 3 && r.value[..2] == ["ffmpeg", "-y"] && r.value[|r.value| - 1] == outputFile
  {
    if !SupportedPlatform(platform) then Err(UnsupportedPlatform(platform))
    else Ok(["ffmpeg", "-y"] + InputArgs(cfg, platform, xdpyinfo) + EncodeArgs(cfg) + [outputFile])
  }

  /**
   * Every platform's command carries the configured frame rate, the
   * `-t` segment time limit and the CRF of the quality tier; the linux command
   * also carries the probed screen size.
   */
  lemma SegmentCommandOptions(cfg: Config, platform: String, xdpyinfo: Option<String>, outputFile: String)
    requires SupportedPlatform(platform)
    ensures SegmentCommand(cfg, platform, xdpyinfo, outputFile).Ok?
    ensures HasOption(SegmentCommand(cfg, platform, xdpyinfo, outputFile).value, "-framerate", IntToString(cfg.fps))
    ensures HasOption(SegmentCommand(cfg, platform, xdpyinfo, outputFile).value, "-t", IntToString(cfg.segmentDuration))
    ensures HasOption(SegmentCommand(cfg, platform, xdpyinfo, outputFile).value, "-crf", Crf(cfg.quality))
    ensures platform == "linux" ==>
      HasOption(SegmentCommand(cfg, platform, xdpyinfo, outputFile).value, "-video_size", LinuxResolution(xdpyinfo))
  {
    var cmd := SegmentCommand(cfg, platform, xdpyinfo, outputFile).value;
    assert HasOption(cmd, "-framerate", IntToString(cfg.fps)) by {
      CommandHasOption(cfg, platform, xdpyinfo, outputFile, true, 2);
    }
    assert HasOption(cmd, "-t", IntToString(cfg.segmentDuration)) by {
      CommandHasOption(cfg, platform, xdpyinfo, outputFile, false, 0);
    }
    assert HasOption(cmd, "-crf", Crf(cfg.quality)) by {
      CommandHasOption(cfg, platform, xdpyinfo, outputFile, false, 6);
    }
    if platform == "linux" {
      CommandHasOption(cfg, platform, xdpyinfo, outputFile, true, 4);
    }
  }

  /** An option of the input block (or of the encoding block) is an option of the command. */
  lemma CommandHasOption(cfg: Config, platform: String, xdpyinfo: Option<String>, outputFile: String, inInput: bool, i: nat)
    requires SupportedPlatform(platform)
    requires i + 1 < |if inInput then InputArgs(cfg, platform, xdpyinfo) else EncodeArgs(cfg)|
    ensures var block := if inInput then InputArgs(cfg, platform, xdpyinfo) else EncodeArgs(cfg);
      HasOption(SegmentCommand(cfg, platform, xdpyinfo, outputFile).value, block[i], block[i + 1])
  {
    var head: seq<String> := ["ffmpeg", "-y"];
    var input := InputArgs(cfg, platform, xdpyinfo);
    var encode := EncodeArgs(cfg);
    var tail: seq<String> := [outputFile];
    var cmd := SegmentCommand(cfg, platform, xdpyinfo, outputFile).value;
    if inInput {
      assert cmd == head + input + (encode + tail);
      HasOptionInside(head, input, encode + tail, i);
    } else {
      assert cmd == (head + input) + encode + tail;
      HasOptionInside(head + input, encode, tail, i);
    }
  }

  // ---------------------------------------------------------------- one segment

  /** How the `ffmpeg` run ended: `Popen` raised, the process exited, or `wait` raised. */
  datatype ProcessOutcome = SpawnRaised(message: String) | Exited(code: int) | WaitRaised

  /**
   * `_record_segment`: True only for a clean exit. A failed `wait` is reported
   * as False; an unsupported platform and a failed spawn raise.
   */
  function RecordSegment(cfg: Config, platform: String, xdpyinfo: Option<String>, outputFile: String, outcome: ProcessOutcome): (r: Result<bool>)
    ensures r == Ok(true) <==> SupportedPlatform(platform) && outcome == Exited(0)
    ensures r.Err? <==> !SupportedPlatform(platform) || outcome.SpawnRaised?
    ensures !SupportedPlatform(platform) ==> r == Err(UnsupportedPlatform(platform))
    ensures SupportedPlatform(platform) && outcome.SpawnRaised? ==> r == Err(outcome.message)
  {
    match SegmentCommand(cfg, platform, xdpyinfo, outputFile)
    case Err(e) => Err(e)
    case Ok(_) =>
      match outcome
      case SpawnRaised(m) => Err(m)
      case Exited(code) => Ok(code == 0)
      case WaitRaised => Ok(false)
  }

  // ---------------------------------------------------------------- the recording loop

  /**
   * What one pass of `_recording_loop` observes: the timestamp for the file
   * name, what `_record_segment` returned for that file (see `RecordSegment`),
   * the segment file afterwards, and whether `running` was still set once the
   * segment ended.
   */
  datatype Pass = Pass(stamp: String, recorded: Result<bool>, file: FileStat, running: bool)

  /** `os.path.exists(f) and os.path.getsize(f) > 1000`. */
  predicate Large(f: FileStat)
  {
    f.Present? && f.size > MinSegmentBytes
  }

  /**
   * Which branch a pass took: a good segment, the segment cut short by `stop`
   * (the loop breaks), a flawed segment (the counter still advances), or an
   * exception that ends the recording thread.
   */
  datatype Branch = Completed | Final | Flawed | Crashed(message: String)

  datatype PassResult = PassResult(branch: Branch, queued: bool, nextCount: nat)

  /** The loop goes round again after this pass. */
  predicate Continues(r: PassResult, p: Pass)
  {
    (r.branch == Completed || r.branch == Flawed) && p.running
  }

  /**
   * One pass of `_recording_loop` with the counter at `count`; `uploads` is
   * `self.uploader` being set. A segment is queued when it is good, and also
   * when `stop` cut it short but it is still above 1000 bytes.
   */
  function LoopPass(count: nat, p: Pass, uploads: bool): (r: PassResult)
    ensures r.branch.Crashed? <==> p.recorded.Err?
    ensures r.branch == Completed <==> p.recorded == Ok(true) && Large(p.file)
    ensures r.branch == Final <==> p.recorded.Ok? && !p.running && !(p.recorded.value && Large(p.file))
    ensures r.queued <==> uploads && p.recorded.Ok? && Large(p.file) && (p.recorded.value || !p.running)
    ensures r.nextCount == if r.branch == Completed || r.branch == Flawed then count + 1 else count
  {
    match p.recorded
    case Err(e) => PassResult(Crashed(e), false, count)
    case Ok(success) =>
      if success && Large(p.file) then PassResult(Completed, uploads, count + 1)
      else if !p.running then PassResult(Final, uploads && Large(p.file), count)
      else PassResult(Flawed, false, count + 1)
  }

  /** A segment handed to the uploader: its counter value, timestamp, path and size. */
  datatype QueuedSegment = QueuedSegment(index: nat, stamp: String, path: String, size: nat)

  /**
   * The outcome of `_recording_loop`: the final counter, the segments queued
   * for upload in order, how many passes ran, and whether the last of them
   * left the loop without advancing the counter (the `break` after `stop`, or
   * an exception).
   */
  datatype LoopResult = LoopResult(segmentCount: nat, queued: seq<QueuedSegment>, passes: nat, broke: bool)

  /** Every queued index lies in `[lo, hi)`. */
  predicate IndicesWithin(qs: seq<QueuedSegment>, lo: int, hi: int)
  {
    forall k :: 0 <= k < |qs| ==> lo <= qs[k].index < hi
  }

  /** Queued indices strictly increase: recording order, no segment twice. */
  predicate IndicesIncrease(qs: seq<QueuedSegment>)
  {
    forall k, l :: 0 <= k < l < |qs| ==> qs[k].index < qs[l].index
  }

  /** Prepending at most one segment numbered `lo` to a run numbered from `mid` on. */
  lemma IndicesAfter(here: seq<QueuedSegment>, rest: seq<QueuedSegment>, lo: int, mid: int, hi: int)
    requires |here| <= 1 && IndicesWithin(here, lo, mid) && lo < mid <= hi
    requires IndicesWithin(rest, mid, hi) && IndicesIncrease(rest)
    ensures IndicesWithin(here + rest, lo, hi)
    ensures IndicesIncrease(here + rest)
  {
    var qs := here + rest;
    forall k | 0 <= k < |qs| ensures lo <= qs[k].index < hi {
      if k >= |here| {
        assert qs[k] == rest[k - |here|];
      }
    }
    forall k, l | 0 <= k < l < |qs| ensures qs[k].index < qs[l].index {
      assert qs[l] == rest[l - |here|];
      if k >= |here| {
        assert qs[k] == rest[k - |here|];
      }
    }
  }

  /**
   * `_recording_loop` from counter `count` over the passes the environment
   * supplies. The loop goes on while `running` stays set and nothing raises,
   * and every pass but a final `break` advances the counter by one.
   */
  function RecordingLoop(cfg: Config, count: nat, passes: seq<Pass>, uploads: bool): (r: LoopResult)
    ensures r.passes == PassesRun(passes)
    ensures r.segmentCount == count + r.passes - (if r.broke then 1 else 0)
    ensures r.broke ==> r.passes > 0
    ensures !uploads ==> r.queued == []
    ensures IndicesWithin(r.queued, count, count + r.passes)
    ensures IndicesIncrease(r.queued)
    decreases |passes|
  {
    if |passes| == 0 then LoopResult(count, [], 0, false)
    else
      var p := passes[0];
      var step := LoopPass(count, p, uploads);
      var here := QueuedBy(cfg, count, p, uploads);
      var broke := step.branch == Final || step.branch.Crashed?;
      if !Continues(step, p) then
        LoopResult(step.nextCount, here, 1, broke)
      else
        var rest := RecordingLoop(cfg, count + 1, passes[1..], uploads);
        IndicesAfter(here, rest.queued, count, count + 1, count + 1 + rest.passes);
        LoopResult(rest.segmentCount, here + rest.queued, rest.passes + 1, rest.broke)
  }

  /** What one pass hands to the uploader: its segment when `LoopPass` queues it, else nothing. */
  function QueuedBy(cfg: Config, count: nat, p: Pass, uploads: bool): seq<QueuedSegment>
  {
    if LoopPass(count, p, uploads).queued then [QueuedSegment(count, p.stamp, SegmentPath(cfg, p.stamp, count), p.file.size)] else []
  }

  /** The loop's queue and pass count, one pass at a time. */
  lemma LoopUnfold(cfg: Config, count: nat, passes: seq<Pass>, uploads: bool)
    requires |passes| > 0
    ensures var r := RecordingLoop(cfg, count, passes, uploads);
      var here := QueuedBy(cfg, count, passes[0], uploads);
      if Continues(LoopPass(count, passes[0], uploads), passes[0]) then
        var rest := RecordingLoop(cfg, count + 1, passes[1..], uploads);
        r.queued == here + rest.queued && r.passes == rest.passes + 1
      else r.queued == here && r.passes == 1
  {
  }

  /**
   * How many passes the loop runs: every pass while `running` stays set and
   * recording succeeds, and the first pass where either fails.
   */
  function PassesRun(passes: seq<Pass>): (n: nat)
    ensures n <= |passes|
    ensures n == 0 <==> |passes| == 0
  {
    if |passes| == 0 then 0
    else if passes[0].running && passes[0].recorded.Ok? then 1 + PassesRun(passes[1..])
    else 1
  }

  /** All passes but the last one run kept `running` set and recorded without raising. */
  lemma {:induction false} LoopRunsWhile(passes: seq<Pass>)
    ensures forall j :: 0 <= j < PassesRun(passes) - 1 ==> passes[j].running && passes[j].recorded.Ok?
    decreases |passes|
  {
    if |passes| > 0 && passes[0].running && passes[0].recorded.Ok? {
      LoopRunsWhile(passes[1..]);
      forall j | 1 <= j < PassesRun(passes) - 1 ensures passes[j].running && passes[j].recorded.Ok? {
        assert passes[j] == passes[1..][j - 1];
      }
    }
  }

  /** When passes remain, the last pass run had `running` cleared or its recording raised. */
  lemma {:induction false} LoopStopsWhen(passes: seq<Pass>)
    ensures var n := PassesRun(passes);
      n < |passes| ==> !passes[n - 1].running || passes[n - 1].recorded.Err?
    decreases |passes|
  {
    if |passes| > 0 && passes[0].running && passes[0].recorded.Ok? {
      var n := PassesRun(passes[1..]);
      LoopStopsWhen(passes[1..]);
      if n + 1 < |passes| {
        assert passes[n] == passes[1..][n - 1];
      }
    }
  }

  /** The pass hands its segment to the uploader (the `queued` of `LoopPass`). */
  predicate Queues(p: Pass, uploads: bool)
  {
    uploads && p.recorded.Ok? && Large(p.file) && (p.recorded.value || !p.running)
  }

  /**
   * Queued segment `q` was written by pass `q.index - count`, and that pass
   * queued it: it carries that pass's timestamp, its path is that segment's
   * path, and its size is the size of the file the pass left, above 1000
   * bytes.
   */
  predicate WrittenBy(cfg: Config, count: nat, passes: seq<Pass>, uploads: bool, n: nat, q: QueuedSegment)
  {
    && count <= q.index < count + n
    && n <= |passes|
    && Queues(passes[q.index - count], uploads)
    && passes[q.index - count].file == Present(q.size)
    && q.size > MinSegmentBytes
    && q.stamp == passes[q.index - count].stamp
    && q.path == SegmentPath(cfg, q.stamp, q.index)
  }

  predicate AllWrittenBy(cfg: Config, count: nat, passes: seq<Pass>, uploads: bool, r: LoopResult)
  {
    forall k :: 0 <= k < |r.queued| ==> WrittenBy(cfg, count, passes, uploads, r.passes, r.queued[k])
  }

  /** Pass `j` writes segment `count + j`, and only segments their pass queued are queued. */
  lemma {:induction false} QueuedSegmentsWritten(cfg: Config, count: nat, passes: seq<Pass>, uploads: bool)
    ensures AllWrittenBy(cfg, count, passes, uploads, RecordingLoop(cfg, count, passes, uploads))
    decreases |passes|
  {
    if |passes| > 0 {
      var r := RecordingLoop(cfg, count, passes, uploads);
      var p := passes[0];
      var step := LoopPass(count, p, uploads);
      LoopUnfold(cfg, count, passes, uploads);
      if Continues(step, p) {
        var rest := RecordingLoop(cfg, count + 1, passes[1..], uploads);
        QueuedSegmentsWritten(cfg, count + 1, passes[1..], uploads);
        var here := QueuedBy(cfg, count, p, uploads);
        FirstPassWritten(cfg, count, passes, uploads, r.passes);
        WrittenByCons(cfg, count, passes, uploads, here, rest);
      }
    }
  }

  /** The segment the first pass queues, if any, was written by it. */
  lemma FirstPassWritten(cfg: Config, count: nat, passes: seq<Pass>, uploads: bool, n: nat)
    requires 0 < n <= |passes|
    ensures var here := QueuedBy(cfg, count, passes[0], uploads);
      forall k :: 0 <= k < |here| ==> WrittenBy(cfg, count, passes, uploads, n, here[k])
  {
  }

  /** Segments written by the later passes are still written by the same passes, counted from one earlier. */
  lemma WrittenByCons(cfg: Config, count: nat, passes: seq<Pass>, uploads: bool, here: seq<QueuedSegment>, rest: LoopResult)
    requires |passes| > 0
    requires forall k :: 0 <= k < |here| ==> WrittenBy(cfg, count, passes, uploads, rest.passes + 1, here[k])
    requires AllWrittenBy(cfg, count + 1, passes[1..], uploads, rest)
    ensures forall k :: 0 <= k < |here + rest.queued| ==>
      WrittenBy(cfg, count, passes, uploads, rest.passes + 1, (here + rest.queued)[k])
  {
    var all := here + rest.queued;
    forall k | 0 <= k < |all| ensures WrittenBy(cfg, count, passes, uploads, rest.passes + 1, all[k]) {
      if k >= |here| {
        var q := rest.queued[k - |here|];
        assert all[k] == q;
        assert WrittenBy(cfg, count + 1, passes[1..], uploads, rest.passes, q);
        assert passes[1..][q.index - count - 1] == passes[q.index - count];
      } else {
        assert all[k] == here[k];
      }
    }
  }

  /** Some queued segment carries index `i`. */
  predicate Lists(qs: seq<QueuedSegment>, i: int)
  {
    exists k :: 0 <= k < |qs| && qs[k].index == i
  }

  /**
   * Nothing a pass queues is lost: every pass the loop ran that queued its
   * segment has that segment, numbered `count + j`, among the queued ones.
   */
  lemma {:induction false} PassesQueued(cfg: Config, count: nat, passes: seq<Pass>, uploads: bool, j: nat)
    requires j < PassesRun(passes)
    requires Queues(passes[j], uploads)
    ensures Lists(RecordingLoop(cfg, count, passes, uploads).queued, count + j)
    decreases |passes|
  {
    var here := QueuedBy(cfg, count, passes[0], uploads);
    LoopUnfold(cfg, count, passes, uploads);
    if j == 0 {
      var queued := RecordingLoop(cfg, count, passes, uploads).queued;
      assert here[0].index == count;
      assert queued == here + queued[|here|..];
      ListsAppend(here, queued[|here|..], count);
    } else {
      var rest := RecordingLoop(cfg, count + 1, passes[1..], uploads);
      assert passes[1..][j - 1] == passes[j];
      PassesQueued(cfg, count + 1, passes[1..], uploads, j - 1);
      ListsAppend(here, rest.queued, count + j);
    }
  }

  /** An index listed by either piece is listed by the two together. */
  lemma ListsAppend(a: seq<QueuedSegment>, b: seq<QueuedSegment>, i: int)
    ensures Lists(a, i) || Lists(b, i) ==> Lists(a + b, i)
  {
    if Lists(a, i) {
      var k :| 0 <= k < |a| && a[k].index == i;
      assert (a + b)[k] == a[k];
    } else if Lists(b, i) {
      var k :| 0 <= k < |b| && b[k].index == i;
      assert (a + b)[|a| + k] == b[k];
    }
  }

  /**
   * The segments queued by the loop are exactly those of the passes that
   * queued theirs: pass `j` of those run queued its segment if and only if
   * index `count + j` is among the queued ones.
   */
  lemma QueuedExactly(cfg: Config, count: nat, passes: seq<Pass>, uploads: bool, j: nat)
    requires j < PassesRun(passes)
    ensures Queues(passes[j], uploads) <==> Lists(RecordingLoop(cfg, count, passes, uploads).queued, count + j)
  {
    var r := RecordingLoop(cfg, count, passes, uploads);
    if Queues(passes[j], uploads) {
      PassesQueued(cfg, count, passes, uploads, j);
    }
    if Lists(r.queued, count + j) {
      var k :| 0 <= k < |r.queued| && r.queued[k].index == count + j;
      QueuedWrittenBy(cfg, count, passes, uploads, k);
    }
  }

  /** The pass of a queued segment meets the queueing condition. */
  lemma QueuedWrittenBy(cfg: Config, count: nat, passes: seq<Pass>, uploads: bool, k: nat)
    requires k < |RecordingLoop(cfg, count, passes, uploads).queued|
    ensures var q := RecordingLoop(cfg, count, passes, uploads).queued[k];
      count <= q.index < count + PassesRun(passes) && Queues(passes[q.index - count], uploads)
  {
    var r := RecordingLoop(cfg, count, passes, uploads);
    QueuedSegmentsWritten(cfg, count, passes, uploads);
    assert WrittenBy(cfg, count, passes, uploads, r.passes, r.queued[k]);
  }

  /**
   * `start` resets the counter, so the recording thread numbers segments from
   * zero: the queued segment with index `i` was written by pass `i` and is
   * named after that pass's timestamp.
   */
  function Session(cfg: Config, passes: seq<Pass>, uploads: bool): (r: LoopResult)
    ensures r.segmentCount <= |passes|
    ensures forall k :: 0 <= k < |r.queued| ==>
      r.queued[k].index < |passes| && r.queued[k].path == SegmentPath(cfg, passes[r.queued[k].index].stamp, r.queued[k].index)
  {
    var r := RecordingLoop(cfg, 0, passes, uploads);
    QueuedSegmentsWritten(cfg, 0, passes, uploads);
    assert forall k :: 0 <= k < |r.queued| ==> WrittenBy(cfg, 0, passes, uploads, r.passes, r.queued[k]);
    r
  }

  // ---------------------------------------------------------------- stop

  /** The signals `stop` may send to the running `ffmpeg`, mildest first. */
  datatype Signal = Interrupt | Terminate | Kill

  function Severity(s: Signal): nat
  {
    match s
    case Interrupt => 0
    case Terminate => 1
    case Kill => 2
  }

  /** How the SIGINT step went: the process exited within 5 s, the wait timed out, or something raised. */
  datatype InterruptOutcome = ExitedInTime | TimedOut | InterruptFailed

  /**
   * The escalation `stop` applies to a still-running `ffmpeg`: SIGINT first;
   * after a 5 s timeout, terminate, and kill if it is still there 3 s later;
   * after any other error, kill straight away. A process that has already
   * exited (or was never started) gets no signal.
   */
  function StopSignals(alive: bool, afterInterrupt: InterruptOutcome, exitsAfterTerminate: bool): (r: seq<Signal>)
    ensures r == [] <==> !alive
    ensures alive ==> r[0] == Interrupt
    ensures Terminate in r <==> alive && afterInterrupt == TimedOut
    ensures Kill in r <==> alive && (afterInterrupt == InterruptFailed || (afterInterrupt == TimedOut && !exitsAfterTerminate))
    ensures forall i, j :: 0 <= i < j < |r| ==> Severity(r[i]) < Severity(r[j])
  {
    if !alive then []
    else
      match afterInterrupt
      case ExitedInTime => [Interrupt]
      case TimedOut => if exitsAfterTerminate then [Interrupt, Terminate] else [Interrupt, Terminate, Kill]
      case InterruptFailed => [Interrupt, Kill]
  }

  // ---------------------------------------------------------------- the S3 uploader

  /** The uploader's queue of file paths and its worker (see `WorkQueue`). */
  type Uploader = WorkQueue.Worker<String>

  /** `S3Uploader.queue_upload`: only a file that exists and is non-empty is enqueued. */
  function QueueUpload(u: Uploader, path: String, stat: FileStat): (r: Uploader)
    ensures r.pending == u.pending + (if stat.Present? && stat.size > 0 then [path] else [])
    ensures r.running == u.running && r.taken == u.taken && r.alive == u.alive
  {
    if stat.Present? && stat.size > 0 then WorkQueue.Put(u, path) else u
  }

  /** The recording thread hands every queued segment to `queue_upload`, in order. */
  function QueueSegments(u: Uploader, qs: seq<QueuedSegment>): Uploader
    decreases |qs|
  {
    if |qs| == 0 then u
    else QueueSegments(QueueUpload(u, qs[0].path, Present(qs[0].size)), qs[1..])
  }

  function Paths(qs: seq<QueuedSegment>): seq<String>
  {
    seq(|qs|, k requires 0 <= k < |qs| => qs[k].path)
  }

  /**
   * The uploader's size guard never turns away a segment the recorder queues
   * (those are above 1000 bytes): every one of them is enqueued, in order.
   */
  lemma {:induction false} SegmentsAllEnqueued(u: Uploader, qs: seq<QueuedSegment>)
    requires forall k :: 0 <= k < |qs| ==> qs[k].size > MinSegmentBytes
    ensures QueueSegments(u, qs).pending == u.pending + Paths(qs)
    decreases |qs|
  {
    if |qs| > 0 {
      var u' := QueueUpload(u, qs[0].path, Present(qs[0].size));
      assert forall k :: 0 <= k < |qs[1..]| ==> qs[1..][k] == qs[k + 1];
      SegmentsAllEnqueued(u', qs[1..]);
      assert Paths(qs) == [qs[0].path] + Paths(qs[1..]);
    }
  }

  /** What `_upload_file` does with one path. */
  datatype UploadReport = Skipped | Uploaded(key: String) | Failed(key: String, message: String)

  /**
   * `S3Uploader._upload_file`: a missing file is skipped; otherwise the file
   * goes to `prefix/<file name>`, and a failed transfer is reported, not raised.
   */
  function UploadFile(prefix: String, path: String, onDisk: bool, transfer: Remote<()>): (r: UploadReport)
    ensures r.Skipped? <==> !onDisk
    ensures !r.Skipped? ==> r.key == S3Key(prefix, path)
    ensures r.Failed? <==> onDisk && transfer.Raised?
  {
    if !onDisk then Skipped
    else
      var key := S3Key(prefix, path);
      match transfer
      case Replied(_) => Uploaded(key)
      case Raised(m) => Failed(key, m)
  }

  /**
   * A segment's object key is `prefix/<segment name>`, and the segment's
   * timestamp and counter can be read back from the key's last component.
   */
  lemma SegmentObjectKey(prefix: String, cfg: Config, stamp: String, index: nat, transfer: Remote<()>)
    requires '/' !in stamp
    ensures UploadFile(prefix, SegmentPath(cfg, stamp, index), true, transfer).key == prefix + "/" + SegmentName(stamp, index)
    ensures ParseSegmentName(Basename(UploadFile(prefix, SegmentPath(cfg, stamp, index), true, transfer).key)) == Some((stamp, index))
  {
    var name := SegmentName(stamp, index);
    S3KeyOfJoin(prefix, cfg.outputDir, name);
    BasenameOfJoin(prefix, name);
    SegmentNameRoundTrip(stamp, index);
  }
}
