/**
 * `api.py`: the FastAPI backend's recorder state machine, the video listing,
 * and the path and prompt choices of `/api/analyze`. The recorder object is a
 * collaborator whose construction and `start`/`stop` calls are described by
 * their outcomes; the directory is a listing of the glob's entries (each
 * `name` is the full path the glob yields) and the set of paths that exist.
 */
module Api {
  import opened Text
  import opened Wrappers
  import opened Files
  import VideoAnalyzer

  // ---------------------------------------------------------------- state

  /** The body of `/api/recording/start`, with its pydantic defaults. */
  datatype RecordingConfig = RecordingConfig(segmentDuration: int, quality: String, audioDevice: String, screenIndex: int)

  const DefaultConfig: RecordingConfig := RecordingConfig(30, "medium", "BlackHole 2ch", 1)

  /**
   * `recorder_state`: the recorder is known by the configuration it was built
   * with. `output_dir` is left out: every endpoint is given the directory's
   * listing instead.
   */
  datatype RecorderState = RecorderState(
    recorder: Option<RecordingConfig>,
    isRecording: bool,
    currentVideo: Option<String>,
    sessionId: Option<String>)

  const Initial: RecorderState := RecorderState(None, false, None, None)

  /** `RecordingStatus`. */
  datatype Status = Status(isRecording: bool, sessionId: Option<String>, currentVideo: Option<String>, videoUrl: Option<String>)

  /** An `HTTPException`: status code and detail. */
  datatype HttpError = HttpError(status: int, detail: String)

  /** What an endpoint answers: a body, or an HTTP error. */
  datatype Reply<+T> = Answered(body: T) | Rejected(error: HttpError)

  /** The state after an endpoint ran, and its answer. */
  datatype Transition = Transition(state: RecorderState, reply: Reply<Status>)

  const AlreadyRecording: HttpError := HttpError(400, "Recording already in progress")

  const NotRecording: HttpError := HttpError(400, "No recording in progress")

  const NoStopOnNone: String := "'NoneType' object has no attribute 'stop'"

  /** `f"/api/videos/{os.path.basename(path)}"`. */
  function VideoUrl(path: String): (u: String)
    ensures IsPrefix("/api/videos/", u)
    ensures '/' !in u[|"/api/videos/"|..]
  {
    "/api/videos/" + Basename(path)
  }

  // ---------------------------------------------------------------- start

  /** How the body of the `try` in `start_recording` went. */
  datatype StartOutcome =
    | ConstructionRaised(message: String)  // building the audio processor or the recorder raised
    | StartRaised(message: String)         // the recorder was stored, then its `start` raised
    | Started

  /**
   * `start_recording` at time `stamp`: a second start is refused with 400 and
   * nothing changes. Otherwise the session id is overwritten before anything
   * can fail; a failure answers 500 and leaves the state not recording (but a
   * recorder whose `start` raised stays stored); success stores the recorder
   * and reports a running session without a video.
   */
  function StartRecording(st: RecorderState, config: RecordingConfig, stamp: String, outcome: StartOutcome): (t: Transition)
    ensures st.isRecording ==> t == Transition(st, Rejected(AlreadyRecording))
    ensures !st.isRecording ==> t.state.sessionId == Some(stamp) && t.state.currentVideo == st.currentVideo
    ensures !st.isRecording ==> (t.reply.Answered? <==> outcome.Started?)
    ensures t.reply.Answered? ==>
      && t.state == RecorderState(Some(config), true, st.currentVideo, Some(stamp))
      && t.reply.body == Status(true, Some(stamp), None, None)
    ensures !st.isRecording && !outcome.Started? ==>
      && !t.state.isRecording
      && t.reply == Rejected(HttpError(500, "Failed to start recording: " + outcome.message))
      && t.state.recorder == (if outcome.StartRaised? then Some(config) else st.recorder)
  {
    if st.isRecording then Transition(st, Rejected(AlreadyRecording))
    else
      var named := st.(sessionId := Some(stamp));
      match outcome
      case ConstructionRaised(m) =>
        Transition(named.(isRecording := false), Rejected(HttpError(500, "Failed to start recording: " + m)))
      case StartRaised(m) =>
        Transition(named.(recorder := Some(config), isRecording := false), Rejected(HttpError(500, "Failed to start recording: " + m)))
      case Started =>
        Transition(named.(recorder := Some(config), isRecording := true), Answered(Status(true, Some(stamp), None, None)))
  }

  // ---------------------------------------------------------------- stop

  /** How `recorder.stop()` went. */
  datatype StopOutcome = Stopped | StopRaised(message: String)

  /**
   * `stop_recording`: refused with 400 when not recording. Calling `stop` on a
   * missing recorder raises; any exception answers 500 and leaves the state
   * not recording with the recorder still stored. Otherwise the newest mp4 of
   * the directory becomes the current video (None when there is none), and
   * the recorder is dropped.
   */
  function StopRecording(st: RecorderState, outcome: StopOutcome, listing: seq<FileInfo>): (t: Transition)
    ensures !st.isRecording ==> t == Transition(st, Rejected(NotRecording))
    ensures st.isRecording && st.recorder.None? ==>
      t == Transition(st.(isRecording := false), Rejected(HttpError(500, "Failed to stop recording: " + NoStopOnNone)))
    ensures st.isRecording && st.recorder.Some? && outcome.StopRaised? ==>
      t == Transition(st.(isRecording := false), Rejected(HttpError(500, "Failed to stop recording: " + outcome.message)))
    ensures t.reply.Answered? <==> st.isRecording && st.recorder.Some? && outcome.Stopped?
    ensures t.reply.Answered? ==>
      && t.state == RecorderState(None, false, t.reply.body.currentVideo, st.sessionId)
      && t.reply.body.isRecording == false
      && t.reply.body.sessionId == st.sessionId
      && (t.reply.body.currentVideo.None? <==> forall f :: f in listing ==> !IsMp4(f))
      && (t.reply.body.currentVideo.Some? ==>
            && (exists f :: f in listing && IsMp4(f) && f.name == t.reply.body.currentVideo.value && IsNewestMp4(listing, f))
            && t.reply.body.videoUrl == Some(VideoUrl(t.reply.body.currentVideo.value)))
      && (t.reply.body.currentVideo.None? ==> t.reply.body.videoUrl.None?)
  {
    if !st.isRecording then Transition(st, Rejected(NotRecording))
    else if st.recorder.None? then
      Transition(st.(isRecording := false), Rejected(HttpError(500, "Failed to stop recording: " + NoStopOnNone)))
    else
      match outcome
      case StopRaised(m) =>
        Transition(st.(isRecording := false), Rejected(HttpError(500, "Failed to stop recording: " + m)))
      case Stopped =>
        var latest := Latest(listing);
        var current := if latest.Some? then Some(latest.value.name) else None;
        var url := if latest.Some? then Some(VideoUrl(latest.value.name)) else None;
        Transition(RecorderState(None, false, current, st.sessionId), Answered(Status(false, st.sessionId, current, url)))
  }

  /** No mp4 of the listing was modified later than `f`. */
  predicate IsNewestMp4(listing: seq<FileInfo>, f: FileInfo)
  {
    forall g :: g in listing && IsMp4(g) ==> g.mtime <= f.mtime
  }

  /**
   * When one mp4 is strictly newer than every other, a successful stop makes
   * that file the current video.
   */
  lemma StopPicksNewest(st: RecorderState, listing: seq<FileInfo>, f: FileInfo)
    requires st.isRecording && st.recorder.Some?
    requires f in listing && IsMp4(f)
    requires forall g :: g in listing && IsMp4(g) && g != f ==> g.mtime < f.mtime
    ensures StopRecording(st, Stopped, listing).state.currentVideo == Some(f.name)
  {
    var t := StopRecording(st, Stopped, listing);
    var g :| g in listing && IsMp4(g) && g.name == t.reply.body.currentVideo.value && IsNewestMp4(listing, g);
    assert f.mtime <= g.mtime;
  }

  // ---------------------------------------------------------------- status

  /** `get_recording_status`: the state as it is, with a URL exactly when there is a current video. */
  function GetStatus(st: RecorderState): (s: Status)
    ensures s.isRecording == st.isRecording && s.sessionId == st.sessionId && s.currentVideo == st.currentVideo
    ensures s.videoUrl.Some? <==> Truthy(st.currentVideo)
    ensures s.videoUrl.Some? ==> s.videoUrl.value == VideoUrl(st.currentVideo.value)
  {
    Status(st.isRecording, st.sessionId, st.currentVideo,
      if Truthy(st.currentVideo) then Some(VideoUrl(st.currentVideo.value)) else None)
  }

  /** An mp4's path is never empty: it ends in ".mp4". */
  lemma Mp4NameNonEmpty(f: FileInfo)
    requires IsMp4(f)
    ensures |f.name| >= 4
  {
  }

  /** After a successful stop, the status endpoint reports exactly what the stop answered. */
  lemma StatusAfterStop(st: RecorderState, outcome: StopOutcome, listing: seq<FileInfo>)
    requires StopRecording(st, outcome, listing).reply.Answered?
    ensures GetStatus(StopRecording(st, outcome, listing).state) == StopRecording(st, outcome, listing).reply.body
  {
    var latest := Latest(listing);
    if latest.Some? {
      Mp4NameNonEmpty(latest.value);
    }
  }

  /** After a successful start, a second start is refused and changes nothing. */
  lemma StartTwiceRefused(st: RecorderState, c1: RecordingConfig, s1: String, c2: RecordingConfig, s2: String, o2: StartOutcome)
    requires StartRecording(st, c1, s1, Started).reply.Answered?
    ensures var after := StartRecording(st, c1, s1, Started).state;
      StartRecording(after, c2, s2, o2) == Transition(after, Rejected(AlreadyRecording))
  {
  }

  // ---------------------------------------------------------------- reachable states

  /** One request to the recording endpoints, with the outcomes of its collaborators. */
  datatype Event =
    | Start(config: RecordingConfig, stamp: String, started: StartOutcome)
    | Stop(stopped: StopOutcome, listing: seq<FileInfo>)
    | Query

  function Apply(st: RecorderState, e: Event): RecorderState
  {
    match e
    case Start(c, s, o) => StartRecording(st, c, s, o).state
    case Stop(o, l) => StopRecording(st, o, l).state
    case Query => st
  }

  /** The state after serving `events` in order from server start. */
  function Replay(events: seq<Event>): RecorderState
  {
    if |events| == 0 then Initial else Apply(Replay(events[..|events| - 1]), events[|events| - 1])
  }

  /** Recording is only ever flagged while a recorder is stored. */
  predicate Consistent(st: RecorderState)
  {
    st.isRecording ==> st.recorder.Some?
  }

  lemma ApplyKeepsConsistent(st: RecorderState, e: Event)
    requires Consistent(st)
    ensures Consistent(Apply(st, e))
  {
  }

  /** Every state the endpoints can reach is consistent. */
  lemma {:induction false} ReplayConsistent(events: seq<Event>)
    ensures Consistent(Replay(events))
  {
    if |events| > 0 {
      ReplayConsistent(events[..|events| - 1]);
      ApplyKeepsConsistent(Replay(events[..|events| - 1]), events[|events| - 1]);
    }
  }

  /**
   * So `stop_recording` never calls `stop` on a missing recorder: in a
   * reachable state its only answers are the 400, the recorder's own
   * exception, or the new status.
   */
  lemma StopNeverHitsNone(events: seq<Event>, outcome: StopOutcome, listing: seq<FileInfo>)
    ensures var t := StopRecording(Replay(events), outcome, listing);
      t.reply.Rejected? && t.reply.error.status == 500 ==>
        outcome.StopRaised? && t.reply.error.detail == "Failed to stop recording: " + outcome.message
  {
    ReplayConsistent(events);
  }

  // ---------------------------------------------------------------- listing

  /** One entry of `list_videos`; the size and time are left unformatted. */
  datatype VideoEntry = VideoEntry(filename: String, url: String, size: nat, mtime: int)

  function EntryOf(f: FileInfo): (e: VideoEntry)
    ensures e.url == VideoUrl(f.name) && e.size == f.size && e.mtime == f.mtime
    ensures IsSuffix(e.filename, f.name) && '/' !in e.filename
  {
    VideoEntry(Basename(f.name), VideoUrl(f.name), f.size, f.mtime)
  }

  const MaxListed: nat := 10

  function Entries(fs: seq<FileInfo>): (r: seq<VideoEntry>)
    ensures |r| == |fs|
    ensures forall i :: 0 <= i < |fs| ==> r[i] == EntryOf(fs[i])
  {
    seq(|fs|, i requires 0 <= i < |fs| => EntryOf(fs[i]))
  }

  /** The mp4s, newest first, that `list_videos` keeps. */
  function Listed(listing: seq<FileInfo>): (r: seq<FileInfo>)
    ensures |r| <= MaxListed
    ensures Sorted(r, NewestFirst)
    ensures forall f :: f in r ==> f in listing && IsMp4(f)
  {
    var sorted := SortByMtime(Mp4Files(listing), NewestFirst);
    var kept := if |sorted| <= MaxListed then sorted else sorted[..MaxListed];
    assert forall f :: f in kept ==> f in multiset(Mp4Files(listing));
    kept
  }

  /**
   * `list_videos`: no entries when the directory is missing; otherwise at
   * most ten mp4s, newest first.
   */
  function ListVideos(dirExists: bool, listing: seq<FileInfo>): (r: seq<VideoEntry>)
    ensures !dirExists ==> r == []
    ensures |r| <= MaxListed
    ensures dirExists ==> |r| == |Listed(listing)|
    ensures dirExists ==> forall i :: 0 <= i < |r| ==> r[i] == EntryOf(Listed(listing)[i])
    ensures forall i, j :: 0 <= i < j < |r| ==> r[i].mtime >= r[j].mtime
  {
    if !dirExists then [] else Entries(Listed(listing))
  }

  /** The first `n` of a newest-first sequence hold every element, or `n` elements at least as new as any left out. */
  lemma TopOfSorted(sorted: seq<FileInfo>, f: FileInfo, n: nat)
    requires Sorted(sorted, NewestFirst) && f in sorted
    ensures var kept := if |sorted| <= n then sorted else sorted[..n];
      f in kept || (|kept| == n && forall i :: 0 <= i < |kept| ==> kept[i].mtime >= f.mtime)
  {
    var k :| 0 <= k < |sorted| && sorted[k] == f;
    if n < |sorted| && n <= k {
      forall i | 0 <= i < n ensures sorted[..n][i].mtime >= f.mtime {
        assert Key(sorted[i], NewestFirst) <= Key(sorted[k], NewestFirst);
      }
    } else if n < |sorted| {
      assert sorted[..n][k] == f;
    }
  }

  /** Which mp4s `Listed` keeps: the first ten of the newest-first sort. */
  lemma ListedIsTop(listing: seq<FileInfo>)
    ensures var sorted := SortByMtime(Mp4Files(listing), NewestFirst);
      && (forall f :: f in listing && IsMp4(f) ==> f in sorted)
      && Listed(listing) == if |sorted| <= MaxListed then sorted else sorted[..MaxListed]
  {
    var mp4s := Mp4Files(listing);
    var sorted := SortByMtime(mp4s, NewestFirst);
    forall f | f in listing && IsMp4(f) ensures f in sorted {
      assert f in multiset(mp4s);
    }
  }

  /** A kept mp4 shows up as its entry. */
  lemma EntryListed(listing: seq<FileInfo>, f: FileInfo)
    requires f in Listed(listing)
    ensures EntryOf(f) in ListVideos(true, listing)
  {
    var k :| 0 <= k < |Listed(listing)| && Listed(listing)[k] == f;
    assert ListVideos(true, listing)[k] == EntryOf(f);
  }

  /**
   * Nothing newer is dropped: an mp4 of an existing directory is listed, or
   * the list is full of videos at least as new.
   */
  lemma ListedUnlessTenNewer(listing: seq<FileInfo>, f: FileInfo)
    requires f in listing && IsMp4(f)
    ensures var r := ListVideos(true, listing);
      EntryOf(f) in r || (|r| == MaxListed && forall i :: 0 <= i < |r| ==> r[i].mtime >= f.mtime)
  {
    ListedIsTop(listing);
    TopOfSorted(SortByMtime(Mp4Files(listing), NewestFirst), f, MaxListed);
    if f in Listed(listing) {
      EntryListed(listing, f);
    }
  }

  /** With ten or fewer mp4s, every one of them is listed. */
  lemma FewVideosAllListed(listing: seq<FileInfo>, f: FileInfo)
    requires f in listing && IsMp4(f)
    requires |Mp4Files(listing)| <= MaxListed
    ensures EntryOf(f) in ListVideos(true, listing)
  {
    ListedIsTop(listing);
    EntryListed(listing, f);
  }

  // ---------------------------------------------------------------- analyze

  const NoVideo: String := "No video available for analysis"

  /**
   * The video path chain of `analyze_video`: the given path when truthy, else
   * the current video; when that is falsy or not on disk, the newest mp4 of
   * the directory; when there is none, the 400 whose detail becomes the error.
   */
  function SelectVideoPath(explicit: Option<String>, current: Option<String>, onDisk: set<String>, listing: seq<FileInfo>): (r: Result<String>)
    ensures Truthy(explicit) && explicit.value in onDisk ==> r == Ok(explicit.value)
    ensures !Truthy(explicit) && Truthy(current) && current.value in onDisk ==> r == Ok(current.value)
    ensures r.Err? <==>
      && !(Truthy(explicit) && explicit.value in onDisk)
      && !(!Truthy(explicit) && Truthy(current) && current.value in onDisk)
      && forall f :: f in listing ==> !IsMp4(f)
    ensures r.Err? ==> r.error == NoVideo
    ensures r.Ok? && r.value !in onDisk ==> exists f :: f in listing && IsMp4(f) && f.name == r.value
    ensures r.Ok? && !(Truthy(explicit) && explicit.value in onDisk) && !(!Truthy(explicit) && Truthy(current) && current.value in onDisk) ==>
      r == Ok(Latest(listing).value.name)
  {
    var chosen := if Truthy(explicit) then explicit else current;
    if Truthy(chosen) && chosen.value in onDisk then Ok(chosen.value)
    else
      match Latest(listing)
      case Some(f) => Ok(f.name)
      case None => Err(NoVideo)
  }

  /** An explicit path that is on disk wins over everything else. */
  lemma ExplicitPathWins(path: String, current: Option<String>, onDisk: set<String>, listing: seq<FileInfo>)
    requires path != [] && path in onDisk
    ensures SelectVideoPath(Some(path), current, onDisk, listing) == Ok(path)
  {
  }

  const DefaultAnalysisPrompt: String := "Analyze this sports play with detailed insights."

  const QuestionHead: String := "User's question about the play: \""

  const QuestionTail: String := "\"\n\nBased on the video, please provide:\n1. A detailed answer to the user's question\n2. Key observations about the play\n3. Strategic analysis\n4. Generate a compelling tweet about this moment\n\nFormat your response as a sports journalism article with markdown formatting."

  /**
   * The prompt of `analyze_video`: the question template when the
   * transcription is non-empty (the given prompt is then dropped), else the
   * given prompt or, when that is falsy, the default.
   */
  function AnalysisPrompt(prompt: Option<String>, transcription: Option<String>): (p: String)
    ensures Truthy(transcription) ==> IsPrefix(QuestionHead, p) && IsSuffix(QuestionTail, p)
    ensures !Truthy(transcription) && Truthy(prompt) ==> p == prompt.value
    ensures !Truthy(transcription) && !Truthy(prompt) ==> p == DefaultAnalysisPrompt
    ensures |p| > 0
  {
    var base := if Truthy(prompt) then prompt.value else DefaultAnalysisPrompt;
    if Truthy(transcription) then QuestionHead + transcription.value + QuestionTail else base
  }

  /** The question is quoted whole: it can be read back from the prompt. */
  lemma QuestionReadBack(prompt: Option<String>, question: String)
    requires question != []
    ensures var p := AnalysisPrompt(prompt, Some(question));
      p[|QuestionHead|..|p| - |QuestionTail|] == question
  {
  }

  /** `AnalysisResponse`: always answered, with success and error mutually exclusive. */
  datatype AnalysisResponse = AnalysisResponse(success: bool, analysis: Option<String>, thinking: Option<String>, error: Option<String>)

  /** What the endpoint did: the request sent to Gemini (if any), and its answer. */
  datatype AnalyzeRun = AnalyzeRun(sent: Option<VideoAnalyzer.Request>, response: AnalysisResponse)

  function Failure(message: String): AnalysisResponse
  {
    AnalysisResponse(false, None, None, Some(message))
  }

  /**
   * The transcription step of `/api/analyze`: no audio gives no question; an
   * uploaded audio gives its stripped transcription, or the failure that
   * `transcribe_audio` re-raises.
   */
  function SpokenQuestion(audio: Option<Remote<Option<String>>>): (r: Result<Option<String>>)
    ensures audio.None? ==> r == Ok(None)
    ensures audio.Some? && VideoAnalyzer.Transcription(audio.value).Ok? ==>
      r == Ok(Some(VideoAnalyzer.Transcription(audio.value).value))
    ensures audio.Some? && VideoAnalyzer.Transcription(audio.value).Err? ==>
      r == Err(VideoAnalyzer.Transcription(audio.value).error)
  {
    match audio
    case None => Ok(None)
    case Some(a) =>
      match VideoAnalyzer.Transcription(a)
      case Ok(text) => Ok(Some(text))
      case Err(m) => Err(m)
  }

  /**
   * `/api/analyze`: choose the path, transcribe the uploaded audio if any
   * (`audio` is the transcription call's outcome), build the prompt, and
   * analyse with thinking included. Every exception, including the 400 for a
   * missing video, becomes a failed response carrying its message. The
   * failures are tried in that order: no video, then the transcription, then
   * a chosen path that is not on disk, then the analysis call.
   */
  function Analyze(
    explicit: Option<String>, prompt: Option<String>, audio: Option<Remote<Option<String>>>,
    current: Option<String>, onDisk: set<String>, listing: seq<FileInfo>,
    reply: Remote<VideoAnalyzer.Response>): (r: AnalyzeRun)
    ensures r.response.success <==> r.response.error.None?
    ensures SelectVideoPath(explicit, current, onDisk, listing).Err? ==> r == AnalyzeRun(None, Failure(NoVideo))
    ensures SelectVideoPath(explicit, current, onDisk, listing).Ok? && SpokenQuestion(audio).Err? ==>
      r == AnalyzeRun(None, Failure(SpokenQuestion(audio).error))
    ensures var path := SelectVideoPath(explicit, current, onDisk, listing);
      path.Ok? && SpokenQuestion(audio).Ok? && path.value !in onDisk ==>
      r == AnalyzeRun(None, Failure("Video not found: " + path.value))
    ensures r.sent.Some? <==>
      && SelectVideoPath(explicit, current, onDisk, listing).Ok?
      && SpokenQuestion(audio).Ok?
      && SelectVideoPath(explicit, current, onDisk, listing).value in onDisk
    ensures r.sent.Some? ==>
      r.sent.value == VideoAnalyzer.RequestFor(SelectVideoPath(explicit, current, onDisk, listing).value,
                                               AnalysisPrompt(prompt, SpokenQuestion(audio).value), true)
    ensures r.sent.Some? && reply.Raised? ==> r.response == Failure(reply.message)
    ensures r.sent.Some? && reply.Replied? && VideoAnalyzer.Folded(reply.reply).Err? ==>
      r.response == Failure(VideoAnalyzer.Folded(reply.reply).error)
    ensures r.response.success <==>
      r.sent.Some? && reply.Replied? && VideoAnalyzer.Folded(reply.reply).Ok?
    ensures r.response.success ==>
      && r.response.analysis == VideoAnalyzer.Folded(reply.reply).value.response
      && r.response.thinking == VideoAnalyzer.Folded(reply.reply).value.thinking
  {
    match SelectVideoPath(explicit, current, onDisk, listing)
    case Err(m) => AnalyzeRun(None, Failure(m))
    case Ok(path) =>
      match SpokenQuestion(audio)
      case Err(m) => AnalyzeRun(None, Failure(m))
      case Ok(text) =>
        var call := VideoAnalyzer.AnalyzeVideo(path, path in onDisk, AnalysisPrompt(prompt, text), true, reply);
        match call.result
        case Err(m) => AnalyzeRun(call.sent, Failure(m))
        case Ok(a) => AnalyzeRun(call.sent, AnalysisResponse(true, a.response, a.thinking, None))
  }

  /**
   * A spoken question reaches Gemini: when the audio transcribes to a
   * non-blank question and a video is found on disk, the request carries the
   * question, quoted whole, with thinking on.
   */
  lemma QuestionReachesGemini(
    explicit: Option<String>, prompt: Option<String>, spoken: String,
    current: Option<String>, onDisk: set<String>, listing: seq<FileInfo>,
    reply: Remote<VideoAnalyzer.Response>)
    requires !AllSpace(spoken)
    requires SelectVideoPath(explicit, current, onDisk, listing).Ok?
    requires SelectVideoPath(explicit, current, onDisk, listing).value in onDisk
    ensures var r := Analyze(explicit, prompt, Some(Replied(Some(spoken))), current, onDisk, listing, reply);
      && r.sent.Some?
      && r.sent.value.includeThoughts
      && r.sent.value.prompt == QuestionHead + Strip(spoken) + QuestionTail
  {
    var text := Strip(spoken);
    assert VideoAnalyzer.Transcription(Replied(Some(spoken))) == Ok(text);
    AnalyzeSends(explicit, prompt, Replied(Some(spoken)), text, current, onDisk, listing, reply);
    PromptOfQuestion(prompt, text);
  }

  /** A transcription that succeeds is what the prompt is built from, and the request goes out with thinking on. */
  lemma AnalyzeSends(
    explicit: Option<String>, prompt: Option<String>, audio: Remote<Option<String>>, text: String,
    current: Option<String>, onDisk: set<String>, listing: seq<FileInfo>,
    reply: Remote<VideoAnalyzer.Response>)
    requires VideoAnalyzer.Transcription(audio) == Ok(text)
    requires SelectVideoPath(explicit, current, onDisk, listing).Ok?
    requires SelectVideoPath(explicit, current, onDisk, listing).value in onDisk
    ensures var r := Analyze(explicit, prompt, Some(audio), current, onDisk, listing, reply);
      && r.sent.Some?
      && r.sent.value.includeThoughts
      && r.sent.value.prompt == AnalysisPrompt(prompt, Some(text))
  {
  }

  /** A non-empty question gives the question template. */
  lemma PromptOfQuestion(prompt: Option<String>, text: String)
    requires text != []
    ensures AnalysisPrompt(prompt, Some(text)) == QuestionHead + text + QuestionTail
  {
  }

  const TranscriptionFailed: String := "Transcription failed: "

  /** `/api/transcribe`: the stripped text, or a 500 carrying the failure. */
  function Transcribe(reply: Remote<Option<String>>): (r: Reply<String>)
    ensures r.Answered? <==> VideoAnalyzer.Transcription(reply).Ok?
    ensures r.Answered? ==> r.body == VideoAnalyzer.Transcription(reply).value
    ensures r.Rejected? ==> r.error.status == 500 && IsPrefix(TranscriptionFailed, r.error.detail)
  {
    match VideoAnalyzer.Transcription(reply)
    case Ok(text) => Answered(text)
    case Err(m) => Rejected(HttpError(500, TranscriptionFailed + m))
  }
}
