/**
 * What the two recorder scripts share: the quality-tier -> CRF table, the
 * platform switch, the `xdpyinfo` resolution probe, the S3 key of an upload,
 * and the file facts the recorders test before queueing.
 */
module Capture {
  import opened Text
  import opened Wrappers

  // ---------------------------------------------------------------- quality presets

  /** `quality_presets`: x264 constant-rate factor per tier (lower means better quality). */
  const QualityPresets: map<String, String> := map["low" := "28", "medium" := "23", "high" := "18"]

  /** `quality_presets.get(quality, "23")`. */
  function Crf(quality: String): (crf: String)
    ensures crf in QualityPresets.Values
    ensures |crf| == 2 && AllDigits(crf)
    ensures quality !in QualityPresets ==> crf == QualityPresets["medium"]
  {
    assert QualityPresets["medium"] == "23";
    if quality in QualityPresets then QualityPresets[quality] else "23"
  }

  /**
   * The three tiers get three distinct CRF values, and a higher tier never has
   * a higher CRF: low >= medium >= high.
   */
  lemma CrfOrderedByTier()
    ensures DecimalValue(Crf("low")) > DecimalValue(Crf("medium")) > DecimalValue(Crf("high"))
  {
    assert DecimalValue("28") == 28;
    assert DecimalValue("23") == 23;
    assert DecimalValue("18") == 18;
  }

  // ---------------------------------------------------------------- platforms

  /** The values of `sys.platform` the scripts build a command for. */
  predicate SupportedPlatform(platform: String)
  {
    platform == "darwin" || platform == "linux" || platform == "win32"
  }

  /** The `RuntimeError` raised for any other platform. */
  function UnsupportedPlatform(platform: String): String
  {
    "Unsupported platform: " + platform
  }

  /** `cmd` holds `flag` immediately followed by `value`. */
  predicate HasOption(cmd: seq<String>, flag: String, value: String)
  {
    exists i :: 0 <= i < |cmd| - 1 && cmd[i] == flag && cmd[i + 1] == value
  }

  lemma HasOptionAt(cmd: seq<String>, i: nat, flag: String, value: String)
    requires i + 1 < |cmd| && cmd[i] == flag && cmd[i + 1] == value
    ensures HasOption(cmd, flag, value)
  {
  }

  /** An option inside one block of a command is an option of the whole command. */
  lemma HasOptionInside(before: seq<String>, block: seq<String>, after: seq<String>, i: nat)
    requires i + 1 < |block|
    ensures HasOption(before + block + after, block[i], block[i + 1])
  {
    var cmd := before + block + after;
    assert cmd[|before| + i] == block[i] && cmd[|before| + i + 1] == block[i + 1];
    HasOptionAt(cmd, |before| + i, block[i], block[i + 1]);
  }

  const DefaultAudioDevice: String := "BlackHole 2ch"

  /** `audio_device or "BlackHole 2ch"` (the macOS loopback device): None and the empty string both select the default. */
  function AudioDevice(requested: Option<String>): (d: String)
    ensures d != []
    ensures Truthy(requested) ==> d == requested.value
    ensures !Truthy(requested) ==> d == DefaultAudioDevice
  {
    if Truthy(requested) then requested.value else DefaultAudioDevice
  }

  // ---------------------------------------------------------------- xdpyinfo

  const DefaultResolution: String := "1920x1080"

  const DimensionsTag: String := "dimensions:"

  /** Line `i` is the first line that contains `dimensions:`. */
  ghost predicate IsFirstDimensionsLine(lines: seq<String>, i: int)
  {
    && 0 <= i < |lines|
    && Contains(lines[i], DimensionsTag)
    && forall k :: 0 <= k < i ==> !Contains(lines[k], DimensionsTag)
  }

  /** Index of the first line that contains `dimensions:`. */
  function FirstDimensionsLine(lines: seq<String>): (r: Option<nat>)
    ensures r.None? <==> forall i :: 0 <= i < |lines| ==> !Contains(lines[i], DimensionsTag)
    ensures r.Some? ==> IsFirstDimensionsLine(lines, r.value)
  {
    if |lines| == 0 then None
    else if Contains(lines[0], DimensionsTag) then Some(0)
    else
      match FirstDimensionsLine(lines[1..])
      case None =>
        assert forall i :: 1 <= i < |lines| ==> lines[i] == lines[1..][i - 1];
        None
      case Some(k) =>
        assert forall i :: 1 <= i < k + 1 ==> lines[i] == lines[1..][i - 1];
        Some(k + 1)
  }

  lemma FirstDimensionsLineUnique(lines: seq<String>, i: int)
    requires IsFirstDimensionsLine(lines, i)
    ensures FirstDimensionsLine(lines) == Some(i)
  {
    var r := FirstDimensionsLine(lines);
    assert r.Some?;
  }

  /**
   * `line.split()[1]`, or the default when that raises IndexError: taking the
   * line apart into whitespace gaps and words, the second word when there
   * are two or more.
   */
  function SecondWordOrDefault(line: String): (r: String)
    ensures |r| > 0 && NoSpace(r)
    ensures forall gaps, words :: IsSplit(line, gaps, words) ==>
      r == if |words| >= 2 then words[1] else DefaultResolution
  {
    assert NoSpace(DefaultResolution);
    WordsDetermined(line);
    var words := Words(line);
    if |words| >= 2 then words[1] else DefaultResolution
  }

  /**
   * A line that reads: optional whitespace, a word, whitespace, a second word,
   * then whitespace or nothing, yields that second word (as xdpyinfo's
   * `  dimensions:    1920x1080 pixels (…)` yields `1920x1080`).
   */
  lemma SecondWordOfLine(g0: String, w0: String, g1: String, w1: String, rest: String)
    requires AllSpace(g0) && AllSpace(g1) && |g1| > 0
    requires |w0| > 0 && NoSpace(w0) && |w1| > 0 && NoSpace(w1)
    requires rest == [] || IsSpace(rest[0])
    ensures SecondWordOrDefault(g0 + w0 + g1 + w1 + rest) == w1
  {
    var tail := g1 + w1 + rest;
    assert g0 + w0 + g1 + w1 + rest == g0 + w0 + tail;
    assert tail[0] == g1[0];
    WordsAfterGapAndWord(g0, w0, tail);
    WordsAfterGapAndWord(g1, w1, rest);
  }

  /**
   * `_get_linux_resolution`: `stdout` is the output of `xdpyinfo`, or None when
   * running it raised. The answer is the second whitespace-separated word of
   * the first line containing `dimensions:`; it is the default when there is no
   * such line, when that line has fewer than two words (the IndexError is
   * caught), or when the probe failed. Either way it is one non-empty word.
   */
  function LinuxResolution(stdout: Option<String>): (r: String)
    ensures |r| > 0 && NoSpace(r)
    ensures stdout.None? ==> r == DefaultResolution
    ensures stdout.Some? && (forall i :: 0 <= i < |SplitOn(stdout.value, '\n')| ==> !Contains(SplitOn(stdout.value, '\n')[i], DimensionsTag))
      ==> r == DefaultResolution
    ensures forall i :: (stdout.Some? && IsFirstDimensionsLine(SplitOn(stdout.value, '\n'), i)
      ==> r == SecondWordOrDefault(SplitOn(stdout.value, '\n')[i]))
  {
    assert NoSpace(DefaultResolution);
    match stdout
    case None => DefaultResolution
    case Some(out) =>
      var lines := SplitOn(out, '\n');
      match FirstDimensionsLine(lines)
      case None => DefaultResolution
      case Some(i) =>
        forall j | IsFirstDimensionsLine(lines, j) ensures j == i {
          FirstDimensionsLineUnique(lines, j);
        }
        SecondWordOrDefault(lines[i])
  }

  // ---------------------------------------------------------------- uploads

  /** `f"{prefix}/{os.path.basename(file_path)}"`: the S3 object key of an upload. */
  function S3Key(prefix: String, path: String): (key: String)
    ensures IsPrefix(prefix + "/", key)
    ensures '/' !in key[|prefix| + 1..]
    ensures IsSuffix(key[|prefix| + 1..], path)
  {
    prefix + "/" + Basename(path)
  }

  /** A file written into a directory is uploaded under `prefix/<its name>`. */
  lemma S3KeyOfJoin(prefix: String, dir: String, name: String)
    requires '/' !in name
    ensures S3Key(prefix, JoinPath(dir, name)) == prefix + "/" + name
  {
    BasenameOfJoin(dir, name);
  }

  /** What `os.path.exists` and `os.path.getsize` report about a path. */
  datatype FileStat = Missing | Present(size: nat)
}
