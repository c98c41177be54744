/**
 * `screen_recorder_with_audio.py`: one long-running `ffmpeg` that cuts its own
 * segments, a file watcher that polls the output directory for finished
 * segments, and an S3 uploader that deletes each local file once it is
 * uploaded.
 *
 * The directory is a listing of `Files.FileInfo` whose names are full paths;
 * one watch step sees one listing (the directory is taken not to change
 * within a step) and the two size samples of each new file.
 */
module ScreenRecorder {
  import opened Text
  import opened Wrappers
  import opened Files
  import opened Capture
  import WorkQueue

  // ---------------------------------------------------------------- the ffmpeg command

  /** The settings the constructor stores; `audioDevice` may be absent. */
  datatype Config = Config(
    outputDir: String,
    segmentDuration: int,
    fps: int,
    quality: String,
    audioDevice: Option<String>)

  /** The fixed Windows capture device. */
  const WindowsAudio: String := "audio=Stereo Mix (Realtek High Definition Audio)"

  /** `recording_{timestamp}_%03d.mp4`: ffmpeg's segment muxer fills in the segment number. */
  function PatternName(stamp: String): (name: String)
    ensures IsSuffix("_%03d.mp4", name)
    ensures '/' !in stamp ==> '/' !in name
  {
    var name := "recording_" + stamp + "_%03d.mp4";
    assert name[|name| - 9..] == "_%03d.mp4";
    name
  }

  /** macOS: screen 1 and the configured (or default loopback) audio device through avfoundation. */
  function DarwinInput(cfg: Config): (r: seq<String>)
    ensures |r| == 6 && r[2] == "-framerate" && r[3] == IntToString(cfg.fps)
    ensures r[4] == "-i" && r[5] == "1:" + AudioDevice(cfg.audioDevice)
  {
    ["-f", "avfoundation", "-framerate", IntToString(cfg.fps), "-i", "1:" + AudioDevice(cfg.audioDevice)]
  }

  /** Linux: display :0.0 at the probed size through x11grab, and PulseAudio's default source. */
  function LinuxInput(cfg: Config, xdpyinfo: Option<String>): (r: seq<String>)
    ensures |r| == 12 && r[2] == "-framerate" && r[3] == IntToString(cfg.fps)
    ensures r[4] == "-video_size" && r[5] == LinuxResolution(xdpyinfo)
  {
    var size := LinuxResolution(xdpyinfo);
    var video := ["-f", "x11grab", "-framerate", IntToString(cfg.fps), "-video_size", size, "-i", ":0.0"];
    var audio := ["-f", "pulse", "-i", "default"];
    video + audio
  }

  /** Windows: the desktop through gdigrab and a fixed DirectShow device; the configured device is ignored. */
  function WindowsInput(cfg: Config): (r: seq<String>)
    ensures |r| == 10 && r[2] == "-framerate" && r[3] == IntToString(cfg.fps)
    ensures r[8] == "-i" && r[9] == WindowsAudio
  {
    ["-f", "gdigrab", "-framerate", IntToString(cfg.fps), "-i", "desktop", "-f", "dshow", "-i", WindowsAudio]
  }

  /** The capture inputs of each platform (after the program name). */
  function InputArgs(cfg: Config, platform: String, xdpyinfo: Option<String>): (r: seq<String>)
    requires SupportedPlatform(platform)
    ensures |r| >= 6 && r[2] == "-framerate" && r[3] == IntToString(cfg.fps)
  {
    if platform == "darwin" then DarwinInput(cfg)
    else if platform == "linux" then LinuxInput(cfg, xdpyinfo)
    else WindowsInput(cfg)
  }

  /** The encoder and the segment muxer options, the same on every platform. */
  function OutputArgs(cfg: Config): (r: seq<String>)
    ensures |r| == 18
    ensures r[4] == "-crf" && r[5] == Crf(cfg.quality)
    ensures r[10] == "-f" && r[11] == "segment"
    ensures r[12] == "-segment_time" && r[13] == IntToString(cfg.segmentDuration)
  {
    OutputOptions(Crf(cfg.quality), IntToString(cfg.segmentDuration))
  }

  /** The output options around a given CRF value and segment length. */
  function OutputOptions(crf: String, segmentTime: String): (r: seq<String>)
    ensures |r| == 18
    ensures r[4] == "-crf" && r[5] == crf
    ensures r[10] == "-f" && r[11] == "segment"
    ensures r[12] == "-segment_time" && r[13] == segmentTime
  {
    ["-c:v", "libx264", "-preset", "ultrafast", "-crf", crf, "-c:a", "aac", "-b:a", "128k",
     "-f", "segment", "-segment_time", segmentTime,
     "-reset_timestamps", "1", "-segment_format", "mp4"]
  }

  /** `_get_ffmpeg_command`, with the timestamp it reads from the clock as a parameter. */
  function FfmpegCommand(cfg: Config, platform: String, xdpyinfo: Option<String>, stamp: String): (r: Result<seq<String>>)
    ensures r.Err? <==> !SupportedPlatform(platform)
    ensures r.Err? ==> r.error == UnsupportedPlatform(platform)
    ensures r.Ok? ==> |r.value| > 1 && r.value[0] == "ffmpeg"
    ensures r.Ok? ==> r.value[|r.value| - 1] == JoinPath(cfg.outputDir, PatternName(stamp))
  {
    if !SupportedPlatform(platform) then Err(UnsupportedPlatform(platform))
    else Ok(["ffmpeg"] + InputArgs(cfg, platform, xdpyinfo) + OutputArgs(cfg) + [JoinPath(cfg.outputDir, PatternName(stamp))])
  }

  /** An option of the input block is an option of the command. */
  lemma InputHasOption(cfg: Config, platform: String, xdpyinfo: Option<String>, stamp: String, i: nat)
    requires SupportedPlatform(platform)
    requires i + 1 < |InputArgs(cfg, platform, xdpyinfo)|
    ensures HasOption(FfmpegCommand(cfg, platform, xdpyinfo, stamp).value,
      InputArgs(cfg, platform, xdpyinfo)[i], InputArgs(cfg, platform, xdpyinfo)[i + 1])
  {
    var input := InputArgs(cfg, platform, xdpyinfo);
    var rest := OutputArgs(cfg) + [JoinPath(cfg.outputDir, PatternName(stamp))];
    assert FfmpegCommand(cfg, platform, xdpyinfo, stamp).value == ["ffmpeg"] + input + rest;
    HasOptionInside(["ffmpeg"], input, rest, i);
  }

  /** An option of the output block is an option of the command. */
  lemma OutputHasOption(cfg: Config, platform: String, xdpyinfo: Option<String>, stamp: String, i: nat)
    requires SupportedPlatform(platform)
    requires i + 1 < |OutputArgs(cfg)|
    ensures HasOption(FfmpegCommand(cfg, platform, xdpyinfo, stamp).value, OutputArgs(cfg)[i], OutputArgs(cfg)[i + 1])
  {
    var front := ["ffmpeg"] + InputArgs(cfg, platform, xdpyinfo);
    var tail := [JoinPath(cfg.outputDir, PatternName(stamp))];
    assert FfmpegCommand(cfg, platform, xdpyinfo, stamp).value == front + OutputArgs(cfg) + tail;
    HasOptionInside(front, OutputArgs(cfg), tail, i);
  }

  /**
   * Every platform's command writes through the segment muxer, cuts segments
   * of the configured length, and uses the quality tier's CRF; the output
   * pattern's file name is `recording_<stamp>_%03d.mp4`.
   */
  lemma FfmpegCommandOptions(cfg: Config, platform: String, xdpyinfo: Option<String>, stamp: String)
    requires SupportedPlatform(platform)
    ensures FfmpegCommand(cfg, platform, xdpyinfo, stamp).Ok?
    ensures HasOption(FfmpegCommand(cfg, platform, xdpyinfo, stamp).value, "-f", "segment")
    ensures HasOption(FfmpegCommand(cfg, platform, xdpyinfo, stamp).value, "-segment_time", IntToString(cfg.segmentDuration))
    ensures HasOption(FfmpegCommand(cfg, platform, xdpyinfo, stamp).value, "-crf", Crf(cfg.quality))
    ensures HasOption(FfmpegCommand(cfg, platform, xdpyinfo, stamp).value, "-framerate", IntToString(cfg.fps))
    ensures '/' !in stamp ==>
      Basename(Last(FfmpegCommand(cfg, platform, xdpyinfo, stamp).value)) == "recording_" + stamp + "_%03d.mp4"
  {
    OutputHasOption(cfg, platform, xdpyinfo, stamp, 10);
    OutputHasOption(cfg, platform, xdpyinfo, stamp, 12);
    OutputHasOption(cfg, platform, xdpyinfo, stamp, 4);
    InputHasOption(cfg, platform, xdpyinfo, stamp, 2);
    if '/' !in stamp {
      BasenameOfJoin(cfg.outputDir, PatternName(stamp));
    }
  }

  /**
   * The audio input differs by platform: macOS uses the configured device or
   * the loopback default, linux PulseAudio's default source together with the
   * probed screen size, and Windows a fixed device whatever was configured.
   */
  lemma FfmpegCommandInputs(cfg: Config, platform: String, xdpyinfo: Option<String>, stamp: String)
    requires SupportedPlatform(platform)
    ensures FfmpegCommand(cfg, platform, xdpyinfo, stamp).Ok?
    ensures platform == "darwin" ==>
      HasOption(FfmpegCommand(cfg, platform, xdpyinfo, stamp).value, "-i", "1:" + AudioDevice(cfg.audioDevice))
    ensures platform == "linux" ==>
      HasOption(FfmpegCommand(cfg, platform, xdpyinfo, stamp).value, "-video_size", LinuxResolution(xdpyinfo))
    ensures platform == "win32" ==>
      HasOption(FfmpegCommand(cfg, platform, xdpyinfo, stamp).value, "-i", WindowsAudio)
  {
    if platform == "darwin" {
      InputHasOption(cfg, platform, xdpyinfo, stamp, 4);
    } else if platform == "linux" {
      InputHasOption(cfg, platform, xdpyinfo, stamp, 4);
    } else {
      InputHasOption(cfg, platform, xdpyinfo, stamp, 8);
    }
  }

  function Last(s: seq<String>): String
    requires |s| > 0
  {
    s[|s| - 1]
  }

  // ---------------------------------------------------------------- the S3 uploader

  /** This uploader's queue takes every path, with no existence or size check. */
  type Uploader = WorkQueue.Worker<String>

  /** `S3Uploader.queue_upload`. */
  function QueueUpload(u: Uploader, path: String): (r: Uploader)
    ensures r.pending == u.pending + [path] && |r.pending| == |u.pending| + 1
    ensures r.running == u.running && r.taken == u.taken && r.alive == u.alive
  {
    WorkQueue.Put(u, path)
  }

  /** How the S3 transfer and the following `os.remove` went for one file. */
  datatype Attempt = Attempt(transfer: Remote<()>, removal: Remote<()>)

  predicate Succeeded(a: Attempt)
  {
    a.transfer.Replied? && a.removal.Replied?
  }

  datatype UploadReport = Uploaded(key: String) | Failed(key: String, message: String)

  /** The files left on disk after one attempt at uploading `path`. */
  function LeftOnDisk(path: String, onDisk: set<String>, a: Attempt): set<String>
  {
    if Succeeded(a) then onDisk - {path} else onDisk
  }

  /**
   * `S3Uploader._upload_file` over the set of files on disk: upload to
   * `prefix/<file name>`, then delete the local copy. Any exception (the
   * transfer or the removal) is reported, and the file stays where it was.
   */
  function UploadFile(prefix: String, path: String, onDisk: set<String>, a: Attempt): (r: (UploadReport, set<String>))
    ensures r.0.key == S3Key(prefix, path)
    ensures r.0.Uploaded? <==> Succeeded(a)
    ensures Succeeded(a) ==> r.1 == onDisk - {path}
    ensures !Succeeded(a) ==> r.1 == onDisk
    ensures r.1 == LeftOnDisk(path, onDisk, a)
  {
    var key := S3Key(prefix, path);
    match a.transfer
    case Raised(m) => (Failed(key, m), onDisk)
    case Replied(_) =>
      match a.removal
      case Raised(m) => (Failed(key, m), onDisk)
      case Replied(_) => (Uploaded(key), onDisk - {path})
  }

  /** The files left on disk after the worker's uploads of `paths`, in queue order. */
  function UploadAll(paths: seq<String>, onDisk: set<String>, attempts: seq<Attempt>): (r: set<String>)
    requires |attempts| == |paths|
    ensures r <= onDisk
    ensures forall p :: p in onDisk && p !in paths ==> p in r
    decreases |paths|
  {
    if |paths| == 0 then onDisk
    else UploadAll(paths[1..], LeftOnDisk(paths[0], onDisk, attempts[0]), attempts[1..])
  }

  /** The paths whose upload and removal both succeeded. */
  function Delivered(paths: seq<String>, attempts: seq<Attempt>): set<String>
    requires |attempts| == |paths|
  {
    set i | 0 <= i < |paths| && Succeeded(attempts[i]) :: paths[i]
  }

  /**
   * A local file disappears exactly when one of its uploads succeeded: a
   * failed upload never costs the local copy.
   */
  lemma {:induction false} UploadAllDeletesDelivered(paths: seq<String>, onDisk: set<String>, attempts: seq<Attempt>)
    requires |attempts| == |paths|
    ensures UploadAll(paths, onDisk, attempts) == onDisk - Delivered(paths, attempts)
    decreases |paths|
  {
    if |paths| > 0 {
      var next := LeftOnDisk(paths[0], onDisk, attempts[0]);
      UploadAllDeletesDelivered(paths[1..], next, attempts[1..]);
      DeliveredCons(paths, attempts);
    }
  }

  /** The delivered paths are the first one, if its attempt succeeded, and those delivered after it. */
  lemma DeliveredCons(paths: seq<String>, attempts: seq<Attempt>)
    requires |attempts| == |paths| > 0
    ensures Delivered(paths, attempts) ==
      (if Succeeded(attempts[0]) then {paths[0]} else {}) + Delivered(paths[1..], attempts[1..])
  {
    var head := if Succeeded(attempts[0]) then {paths[0]} else {};
    forall f | f in Delivered(paths, attempts) ensures f in head + Delivered(paths[1..], attempts[1..]) {
      var i :| 0 <= i < |paths| && Succeeded(attempts[i]) && paths[i] == f;
      if i > 0 {
        assert paths[1..][i - 1] == f && attempts[1..][i - 1] == attempts[i];
      }
    }
    forall f | f in Delivered(paths[1..], attempts[1..]) ensures f in Delivered(paths, attempts) {
      var i :| 0 <= i < |paths| - 1 && Succeeded(attempts[1..][i]) && paths[1..][i] == f;
      assert paths[i + 1] == f && attempts[i + 1] == attempts[1..][i];
    }
  }

  // ---------------------------------------------------------------- the file watcher

  datatype Watcher = Watcher(known: set<String>, running: bool)

  /** `FileWatcher.start`: every mp4 already in the directory is known. */
  function StartWatcher(listing: seq<FileInfo>): (w: Watcher)
    ensures forall f :: f in listing && IsMp4(f) ==> f.name in w.known
    ensures forall n :: n in w.known ==> exists f :: f in listing && IsMp4(f) && f.name == n
    ensures w.running
  {
    Watcher(Names(Mp4Files(listing)), true)
  }

  /** The paths of the mp4 files in a listing: `set(dir.glob("*.mp4"))`. */
  function Current(listing: seq<FileInfo>): set<String>
  {
    Names(Mp4Files(listing))
  }

  /**
   * `sorted(dir.glob("*.mp4"), key=getmtime)[-1]`: the mp4 that sorts last by
   * mtime. The sort is stable, so of several with the newest mtime it is the
   * last in glob order, which is what a front-to-back scan keeping the latest
   * maximum finds.
   */
  function Newest(listing: seq<FileInfo>): (r: FileInfo)
    requires |Mp4Files(listing)| > 0
    ensures r in listing && IsMp4(r)
    ensures forall f :: f in listing && IsMp4(f) ==> f.mtime <= r.mtime
  {
    LastNewest(Mp4Files(listing))
  }

  /** The last file of `fs` with the greatest mtime. */
  function LastNewest(fs: seq<FileInfo>): (r: FileInfo)
    requires |fs| > 0
    ensures r in fs
    ensures forall f :: f in fs ==> f.mtime <= r.mtime
  {
    if |fs| == 1 then fs[0]
    else
      var best := LastNewest(fs[..|fs| - 1]);
      var last := fs[|fs| - 1];
      assert forall f :: f in fs ==> f in fs[..|fs| - 1] || f == last;
      if last.mtime >= best.mtime then last else best
  }

  /**
   * A new file is handed to the uploader when its two size samples agree and
   * are positive, more than one mp4 exists, and it is not the newest one.
   */
  predicate Ready(path: String, listing: seq<FileInfo>, samples: map<String, (nat, nat)>)
  {
    && path in samples
    && samples[path].0 == samples[path].1
    && samples[path].0 > 0
    && |Mp4Files(listing)| > 1
    && path != Newest(listing).name
  }

  /** One pass of `_watch_loop`: the files it queues and the watcher afterwards. */
  datatype StepResult = StepResult(watcher: Watcher, queued: set<String>)

  /**
   * The new files of a pass: mp4 paths not known yet. A new path without
   * samples stands for a file that vanished before `stat`, which raises and
   * ends the watcher thread (the pass yields None).
   */
  function NewFiles(w: Watcher, listing: seq<FileInfo>): set<String>
  {
    Current(listing) - w.known
  }

  /** The files of a pass that get queued. */
  function ReadyFiles(w: Watcher, listing: seq<FileInfo>, samples: map<String, (nat, nat)>): (r: set<String>)
    ensures forall n :: n in r <==> n in NewFiles(w, listing) && Ready(n, listing, samples)
  {
    set n | n in NewFiles(w, listing) && Ready(n, listing, samples)
  }

  /**
   * `_watch_loop` as written: after the pass, `known` is overwritten with the
   * files seen at its start, so the additions for the queued files are lost
   * and every file seen once is known from then on, queued or not.
   */
  function WatchStepAsWritten(w: Watcher, listing: seq<FileInfo>, samples: map<String, (nat, nat)>): (r: Option<StepResult>)
    ensures r.None? <==> exists n :: n in NewFiles(w, listing) && n !in samples
    ensures r.Some? ==> r.value.queued == ReadyFiles(w, listing, samples)
    ensures r.Some? ==> r.value.watcher.known == Current(listing)
    ensures r.Some? ==> r.value.watcher.running == w.running
  {
    if exists n :: n in NewFiles(w, listing) && n !in samples then None
    else Some(StepResult(Watcher(Current(listing), w.running), ReadyFiles(w, listing, samples)))
  }

  /**
   * The pass as evidently intended: only files actually queued become known,
   * so a file skipped because it was still growing or the newest is looked
   * at again on the next pass.
   */
  function WatchStep(w: Watcher, listing: seq<FileInfo>, samples: map<String, (nat, nat)>): (r: Option<StepResult>)
    ensures r.None? <==> exists n :: n in NewFiles(w, listing) && n !in samples
    ensures r.Some? ==> r.value.queued == ReadyFiles(w, listing, samples)
    ensures r.Some? ==> r.value.watcher.known == w.known + r.value.queued
    ensures r.Some? ==> r.value.watcher.running == w.running
  {
    if exists n :: n in NewFiles(w, listing) && n !in samples then None
    else
      var queued := ReadyFiles(w, listing, samples);
      Some(StepResult(Watcher(w.known + queued, w.running), queued))
  }

  /** One poll of the directory: the listing and the size samples of its files. */
  datatype Poll = Poll(listing: seq<FileInfo>, samples: map<String, (nat, nat)>)

  /** One pass of the watch loop as a function of the watcher and the poll it sees. */
  type Pass = (Watcher, Poll) -> Option<StepResult>

  /** The pass as written, on one poll. */
  function PassAsWritten(w: Watcher, p: Poll): Option<StepResult>
  {
    WatchStepAsWritten(w, p.listing, p.samples)
  }

  /** The corrected pass, on one poll. */
  function PassCorrected(w: Watcher, p: Poll): Option<StepResult>
  {
    WatchStep(w, p.listing, p.samples)
  }

  /** The files queued by successive passes, until a pass fails. */
  function RunPasses(pass: Pass, w: Watcher, polls: seq<Poll>): (r: seq<set<String>>)
    ensures |r| <= |polls|
    decreases |polls|
  {
    if |polls| == 0 then []
    else
      match pass(w, polls[0])
      case None => []
      case Some(s) => [s.queued] + RunPasses(pass, s.watcher, polls[1..])
  }

  /** The files queued by successive passes (as written), until a pass fails. */
  function RunAsWritten(w: Watcher, polls: seq<Poll>): seq<set<String>>
  {
    RunPasses(PassAsWritten, w, polls)
  }

  /** The files queued by successive passes (corrected), until a pass fails. */
  function Run(w: Watcher, polls: seq<Poll>): seq<set<String>>
  {
    RunPasses(PassCorrected, w, polls)
  }

  /** After a pass, `known` is the old `known` plus exactly the files the pass queued. */
  ghost predicate AddsQueued(pass: Pass)
  {
    forall v: Watcher, p: Poll :: pass(v, p).Some? ==> pass(v, p).value.watcher.known == v.known + pass(v, p).value.queued
  }

  /** A pass only queues files that were not known before it. */
  ghost predicate QueuesNew(pass: Pass)
  {
    forall v: Watcher, p: Poll :: pass(v, p).Some? ==> pass(v, p).value.queued !! v.known
  }

  /** The corrected pass keeps `known` as the union of what it knew and what it queued. */
  lemma CorrectedAddsQueued()
    ensures AddsQueued(PassCorrected) && QueuesNew(PassCorrected)
  {
    forall v: Watcher, p: Poll | PassCorrected(v, p).Some?
      ensures PassCorrected(v, p).value.watcher.known == v.known + PassCorrected(v, p).value.queued
      ensures PassCorrected(v, p).value.queued !! v.known
    {
      var s := WatchStep(v, p.listing, p.samples).value;
      assert forall n :: n in s.queued ==> n in NewFiles(v, p.listing);
    }
  }

  /** `path` is an mp4 of every listing polled. */
  predicate StaysPresent(path: String, polls: seq<Poll>)
  {
    forall i :: 0 <= i < |polls| ==> path in Current(polls[i].listing)
  }

  /**
   * As written, a known file is never queued again by the loop while it stays
   * in the directory. In particular the files present at `start`, and any new
   * file a pass skipped, are only ever uploaded by `stop`.
   */
  lemma {:induction false} KnownNeverQueuedAsWritten(w: Watcher, polls: seq<Poll>, path: String)
    requires path in w.known && StaysPresent(path, polls)
    ensures forall i :: 0 <= i < |RunAsWritten(w, polls)| ==> path !in RunAsWritten(w, polls)[i]
    decreases |polls|
  {
    if |polls| > 0 && PassAsWritten(w, polls[0]).Some? {
      var s := PassAsWritten(w, polls[0]).value;
      assert path in s.watcher.known && path !in s.queued;
      assert StaysPresent(path, polls[1..]) by {
        forall i | 0 <= i < |polls[1..]| ensures path in Current(polls[1..][i].listing) {
          assert polls[1..][i] == polls[i + 1];
        }
      }
      KnownNeverQueuedAsWritten(s.watcher, polls[1..], path);
      var rest := RunAsWritten(s.watcher, polls[1..]);
      assert RunAsWritten(w, polls) == [s.queued] + rest;
      forall i | 0 <= i < |RunAsWritten(w, polls)| ensures path !in RunAsWritten(w, polls)[i] {
        if i > 0 {
          assert RunAsWritten(w, polls)[i] == rest[i - 1];
        }
      }
    }
  }

  /** At poll `i`, `path` is an mp4 of the directory and ready to be queued. */
  predicate ReadyAt(path: String, polls: seq<Poll>, i: nat)
  {
    i < |polls| && path in Current(polls[i].listing) && Ready(path, polls[i].listing, polls[i].samples)
  }

  /**
   * Corrected, no finished segment is missed: a file that is not known at the
   * start and is ready at some poll (present, stable, not the newest) has been
   * queued by that poll at the latest.
   */
  lemma ReadyFileQueued(w: Watcher, polls: seq<Poll>, path: String, i: nat)
    requires path !in w.known
    requires i < |Run(w, polls)|
    requires ReadyAt(path, polls, i)
    ensures exists j :: 0 <= j <= i && path in Run(w, polls)[j]
  {
    CorrectedAddsQueued();
    forall v: Watcher | path !in v.known && PassCorrected(v, polls[i]).Some?
      ensures path in PassCorrected(v, polls[i]).value.queued
    {
      QueuedWhenReady(v, polls[i], path);
    }
    QueuedByPoll(PassCorrected, w, polls, path, i);
  }

  /**
   * The induction behind `ReadyFileQueued`: if every pass at poll `i` queues
   * `path` unless it is already known, and passes add what they queue to
   * `known`, then `path` has been queued by poll `i`.
   */
  lemma {:induction false} QueuedByPoll(pass: Pass, w: Watcher, polls: seq<Poll>, path: String, i: nat)
    requires AddsQueued(pass)
    requires path !in w.known
    requires i < |RunPasses(pass, w, polls)|
    requires forall v: Watcher ::
      (path !in v.known && pass(v, polls[i]).Some? ==> path in pass(v, polls[i]).value.queued)
    ensures exists j :: 0 <= j <= i && path in RunPasses(pass, w, polls)[j]
    decreases i
  {
    var s := pass(w, polls[0]).value;
    var rest := RunPasses(pass, s.watcher, polls[1..]);
    assert RunPasses(pass, w, polls) == [s.queued] + rest;
    if i == 0 || path in s.queued {
      assert RunPasses(pass, w, polls)[0] == s.queued;
    } else {
      assert polls[1..][i - 1] == polls[i];
      QueuedByPoll(pass, s.watcher, polls[1..], path, i - 1);
      var j :| 0 <= j <= i - 1 && path in rest[j];
      assert RunPasses(pass, w, polls)[j + 1] == rest[j];
    }
  }

  /** A pass that completes queues every new file that is ready. */
  lemma QueuedWhenReady(w: Watcher, poll: Poll, path: String)
    requires path !in w.known && path in Current(poll.listing) && Ready(path, poll.listing, poll.samples)
    requires WatchStep(w, poll.listing, poll.samples).Some?
    ensures path in WatchStep(w, poll.listing, poll.samples).value.queued
  {
    assert path in NewFiles(w, poll.listing);
  }

  /**
   * Corrected, a file is queued by at most one pass: the passes' queued sets
   * are pairwise disjoint and none of them meets the files known at the start.
   */
  lemma QueuedOnce(w: Watcher, polls: seq<Poll>)
    ensures forall i :: 0 <= i < |Run(w, polls)| ==> Run(w, polls)[i] !! w.known
    ensures forall i, j :: 0 <= i < j < |Run(w, polls)| ==> Run(w, polls)[i] !! Run(w, polls)[j]
  {
    CorrectedAddsQueued();
    DisjointPasses(PassCorrected, w, polls);
  }

  /**
   * For any pass that queues only unknown files and adds them to `known`, the
   * queued sets of a run are pairwise disjoint and disjoint from the start.
   */
  lemma {:induction false} DisjointPasses(pass: Pass, w: Watcher, polls: seq<Poll>)
    requires AddsQueued(pass) && QueuesNew(pass)
    ensures forall i :: 0 <= i < |RunPasses(pass, w, polls)| ==> RunPasses(pass, w, polls)[i] !! w.known
    ensures forall i, j :: 0 <= i < j < |RunPasses(pass, w, polls)| ==>
      RunPasses(pass, w, polls)[i] !! RunPasses(pass, w, polls)[j]
    decreases |polls|
  {
    if |polls| > 0 && pass(w, polls[0]).Some? {
      var s := pass(w, polls[0]).value;
      DisjointPasses(pass, s.watcher, polls[1..]);
      var rest := RunPasses(pass, s.watcher, polls[1..]);
      var all := RunPasses(pass, w, polls);
      assert all == [s.queued] + rest;
      forall i | 0 <= i < |all| ensures all[i] !! w.known {
        if i > 0 {
          assert all[i] == rest[i - 1];
        }
      }
      forall i, j | 0 <= i < j < |all| ensures all[i] !! all[j] {
        assert all[j] == rest[j - 1];
        if i > 0 {
          assert all[i] == rest[i - 1];
        }
      }
    }
  }

  const SegA: FileInfo := FileInfo("rec/a.mp4", 5000, 1)
  const SegB: FileInfo := FileInfo("rec/b.mp4", 5000, 2)
  const Stable: map<String, (nat, nat)> := map["rec/a.mp4" := (5000, 5000), "rec/b.mp4" := (5000, 5000)]

  /** The directory the watcher sees in the example below, poll by poll. */
  lemma ExampleListings()
    ensures Current([]) == {}
    ensures Current([SegA]) == {"rec/a.mp4"}
    ensures Current([SegA, SegB]) == {"rec/a.mp4", "rec/b.mp4"}
    ensures |Mp4Files([SegA])| == 1 && |Mp4Files([SegA, SegB])| == 2
    ensures Newest([SegA, SegB]) == SegB
  {
    assert IsMp4(SegA) by { assert SegA.name[|SegA.name| - 4..] == ".mp4"; }
    assert IsMp4(SegB) by { assert SegB.name[|SegB.name| - 4..] == ".mp4"; }
    assert Mp4Files([SegA]) == [SegA] by {
      assert [SegA][1..] == [];
    }
    assert Mp4Files([SegA, SegB]) == [SegA, SegB] by {
      assert [SegA, SegB][1..] == [SegB];
      assert [SegB][1..] == [];
    }
    var n := Newest([SegA, SegB]);
    assert n.mtime >= SegB.mtime;
  }

  /** As written: nothing is queued in either poll. */
  lemma ExampleAsWritten()
    ensures RunAsWritten(StartWatcher([]), [Poll([SegA], Stable), Poll([SegA, SegB], Stable)]) == [{}, {}]
  {
    ExampleListings();
    var w0 := StartWatcher([]);
    var p2 := Poll([SegA, SegB], Stable);
    assert ReadyFiles(w0, [SegA], Stable) == {};
    var w1 := Watcher({"rec/a.mp4"}, true);
    assert WatchStepAsWritten(w0, [SegA], Stable) == Some(StepResult(w1, {}));
    assert NewFiles(w1, [SegA, SegB]) == {"rec/b.mp4"};
    assert ReadyFiles(w1, [SegA, SegB], Stable) == {};
    assert RunAsWritten(w1, [p2]) == [{}];
    assert [Poll([SegA], Stable), p2][1..] == [p2];
  }

  /** Corrected: the second poll queues `a`. */
  lemma ExampleCorrected()
    ensures Run(StartWatcher([]), [Poll([SegA], Stable), Poll([SegA, SegB], Stable)]) == [{}, {"rec/a.mp4"}]
  {
    ExampleListings();
    var w0 := StartWatcher([]);
    var p2 := Poll([SegA, SegB], Stable);
    assert w0 == Watcher({}, true);
    assert NewFiles(w0, [SegA]) == {"rec/a.mp4"};
    assert "rec/a.mp4" in Stable;
    assert ReadyFiles(w0, [SegA], Stable) == {};
    assert w0.known + {} == w0.known;
    assert WatchStep(w0, [SegA], Stable) == Some(StepResult(w0, {}));
    assert Ready("rec/a.mp4", [SegA, SegB], Stable);
    assert ReadyFiles(w0, [SegA, SegB], Stable) == {"rec/a.mp4"};
    assert Run(w0, [p2]) == [{"rec/a.mp4"}];
    assert [Poll([SegA], Stable), p2][1..] == [p2];
  }

  /**
   * The watcher as written never uploads a finished segment: start on an empty
   * directory; the first poll sees only `a` (skipped: the only file), the
   * second sees `a` and a newer `b` (`b` is skipped as the newest, and `a` is
   * no longer new). Nothing is queued, although `a` is complete and stable.
   * The corrected pass queues `a` the second time round.
   */
  lemma WatcherMissesFinishedSegment()
    ensures RunAsWritten(StartWatcher([]), [Poll([SegA], Stable), Poll([SegA, SegB], Stable)]) == [{}, {}]
    ensures Run(StartWatcher([]), [Poll([SegA], Stable), Poll([SegA, SegB], Stable)]) == [{}, {"rec/a.mp4"}]
  {
    ExampleAsWritten();
    ExampleCorrected();
  }

  /** The paths of a sequence of files, in order. */
  function PathsOf(files: seq<FileInfo>): (r: seq<String>)
    ensures |r| == |files| && forall k :: 0 <= k < |files| ==> r[k] == files[k].name
  {
    seq(|files|, k requires 0 <= k < |files| => files[k].name)
  }

  /** `queue_upload` for each file in turn. */
  function QueueAll(u: Uploader, files: seq<FileInfo>): (r: Uploader)
    ensures r.pending == u.pending + PathsOf(files)
    ensures r.running == u.running && r.taken == u.taken && r.alive == u.alive
    decreases |files|
  {
    if |files| == 0 then u
    else
      var r := QueueAll(QueueUpload(u, files[0].name), files[1..]);
      PathsOfCons(files);
      assert (u.pending + [files[0].name]) + PathsOf(files[1..]) == u.pending + ([files[0].name] + PathsOf(files[1..]));
      r
  }

  lemma PathsOfCons(files: seq<FileInfo>)
    requires |files| > 0
    ensures PathsOf(files) == [files[0].name] + PathsOf(files[1..])
  {
  }

  /** What `FileWatcher.stop` leaves behind: the watcher, the uploader, and the files it queued in order. */
  datatype StopResult = StopResult(watcher: Watcher, uploader: Uploader, order: seq<FileInfo>)

  /**
   * `FileWatcher.stop`: every mp4 in the directory is queued once, oldest
   * first by mtime, whether or not the loop already queued it.
   */
  function StopWatcher(w: Watcher, u: Uploader, listing: seq<FileInfo>): (r: StopResult)
    ensures !r.watcher.running && r.watcher.known == w.known
    ensures multiset(r.order) == multiset(Mp4Files(listing))
    ensures Sorted(r.order, OldestFirst)
    ensures r.uploader.pending == u.pending + PathsOf(r.order)
  {
    var sorted := SortByMtime(Mp4Files(listing), OldestFirst);
    StopResult(w.(running := false), QueueAll(u, sorted), sorted)
  }
}
