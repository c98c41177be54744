# Game-day recorder, analyzer and poster — a Dafny model

The system records a screen (with audio) into MP4 segments with `ffmpeg`,
uploads finished segments to S3, serves a small HTTP API that starts and stops
a recorder and hands the newest recording to Gemini for a sports-journalism
analysis, posts the resulting tweet to X, and transcribes microphone audio in
fixed-length chunks. Its logic around the external calls is sequential and
deterministic once the outside world is made an input, and that logic is what
this project models and proves things about:

- `movie_recorder.py` — one `ffmpeg` run per segment, segment naming, the
  per-pass decision of the recording loop, the SIGINT → terminate → kill stop
  escalation, and an S3 uploader whose queue only takes non-empty files
  (module `MovieRecorder`, with `Capture` and `WorkQueue`).
- `screen_recorder_with_audio.py` — one `ffmpeg` segment-muxer run, an
  uploader that deletes a file once it is uploaded, and the polling file
  watcher (module `ScreenRecorder`).
- `api.py` — the recorder-state machine behind start/stop/status, the top-10
  video listing, and the video-path and prompt selection of `/api/analyze`
  (module `Api`).
- `video_analyzer.py` — the API-key check, the MIME table, the folding of a
  Gemini reply into `{response, thinking}`, and the context prompt (module
  `VideoAnalyzer`).
- `twitter_service.py` — credential validation, tweet truncation, post
  validation and error classification, and the post-processing of an
  extracted tweet (module `TwitterService`).
- `voice_transcriber.py` — the frames-per-chunk arithmetic and chunking of
  recorded audio, the flush on the duration limit, the FIFO transcription
  worker, and the Pipecat frame logger (module `VoiceTranscriber`).

Shared modules: `Wrappers` (`Option`, `Result`, `Remote` — the reply of an
outside call or the message it raised — and Python truthiness of an optional
string), `Text` (strip, split, join, basename, decimal digits), `Files` (a
directory listing, the `*.mp4` glob and a stable sort by mtime), `WorkQueue`
(the `queue.Queue` worker loop shared by both uploaders and the transcription
worker), and `Capture` (what both recorder scripts share verbatim: the CRF
table, the platform switch, the `xdpyinfo` probe and the S3 key).

The clock, processes, the file system and every network call are parameters:
a timestamp is an opaque string, an mtime an integer, an `ffmpeg` run an exit
outcome, a directory a `seq<FileInfo>`, a Gemini/boto3/tweepy call a
`Remote` reply.

## Model

| member | source | states |
|---|---|---|
| Text.Strip | video_analyzer.py:84 | `str.strip()`: the result is the slice between the leading and trailing whitespace, both of which are all whitespace; it is empty iff the text is all whitespace, else it starts and ends with a non-space |
| Text.StripPadded | twitter_service.py:116 | whitespace, then a word with non-space ends, then whitespace, strips to exactly that word |
| Text.Words | movie_recorder.py:213 | `str.split()`: every word is non-empty and space-free, and the words concatenate to the text's non-space characters |
| Text.WordsOfSplit | movie_recorder.py:213 | any decomposition of a line into whitespace gaps (non-empty between words) and space-free words has `split()` equal to those words |
| Text.WordsDetermined | movie_recorder.py:213 | the words of such a decomposition are unique: they are `split()` of the line |
| Text.SplitExists | movie_recorder.py:213 | conversely, every line is such a decomposition around `split()`'s words |
| Text.Basename | api.py:186 | `os.path.basename`: a slash-free suffix of the path, preceded by '/' unless it is the whole path |
| Capture.Crf | movie_recorder.py:112-125 | the CRF is one of the table's values, two digits; an unknown tier gets the "medium" value "23" |
| Capture.CrfOrderedByTier | movie_recorder.py:111-116 | lower CRF means better quality: low (28) > medium (23) > high (18) numerically |
| Capture.AudioDevice | movie_recorder.py:104 | a missing or empty device selects "BlackHole 2ch", any other is kept; the result is never empty |
| Capture.FirstDimensionsLine | movie_recorder.py:211-212 | None exactly when no line contains "dimensions:", otherwise the index of the first such line |
| Capture.FirstDimensionsLineUnique | movie_recorder.py:211-213 | the first matching line is unique, so the probe's answer is determined by it |
| Capture.SecondWordOrDefault | movie_recorder.py:213-216 | for every decomposition of the line into gaps and words: the second word when there are at least two, else "1920x1080" (the caught IndexError); always one non-empty space-free word |
| Capture.SecondWordOfLine | movie_recorder.py:213 | on `<ws>w0<ws>w1<ws or end>…` the result is exactly `w1`, e.g. `dimensions:    1920x1080 pixels` gives the resolution |
| Capture.LinuxResolution | movie_recorder.py:205-216 | default when the probe failed or no line matches; otherwise the second word of the first "dimensions:" line |
| Capture.S3Key | movie_recorder.py:66-67 | the key is `prefix/` followed by a slash-free suffix of the path |
| Capture.S3KeyOfJoin | movie_recorder.py:66-67 | a file written into a directory is uploaded as `prefix/<its name>` |
| MovieRecorder.SegmentName | movie_recorder.py:118-121 | names start with "movie_", end with ".mp4" and contain no '/' when the stamp has none |
| MovieRecorder.SegmentNameRoundTrip | movie_recorder.py:118-121 | parsing a segment name gives back its timestamp and counter (zero padding to 3 digits is reversible) |
| MovieRecorder.SegmentNamesDistinct | movie_recorder.py:118-121 | different (timestamp, counter) pairs never produce the same file name |
| MovieRecorder.EncodeArgs | movie_recorder.py:136-144 | the shared tail holds `-t <segment_duration>` and `-crf <preset>` |
| MovieRecorder.InputArgs | movie_recorder.py:129-175 | each platform's input block sets `-framerate <fps>`; on linux `-video_size` is the probed resolution |
| MovieRecorder.SegmentCommand | movie_recorder.py:125-187 | an error exactly on an unsupported platform, with its message; otherwise `ffmpeg -y … <output_file>` |
| MovieRecorder.SegmentCommandOptions | movie_recorder.py:129-185 | every supported command carries `-framerate`, `-t <segment_duration>` and `-crf <preset>` as option pairs |
| MovieRecorder.RecordSegment | movie_recorder.py:123-203 | true iff the platform is supported and `ffmpeg` exited 0; false on a wait exception; the spawn error or RuntimeError propagates |
| MovieRecorder.LoopPass | movie_recorder.py:218-243 | which branch a pass takes, when it queues (only > 1000 bytes, and the final partial file only when stopped) and that only the completed and flawed branches bump the counter |
| MovieRecorder.RecordingLoop | movie_recorder.py:218-243 | the loop runs `PassesRun` passes and the counter grows by one per pass except a final break; nothing is queued without an uploader; queued indices increase and stay among the passes run |
| MovieRecorder.PassesRun | movie_recorder.py:218-243 | the number of passes is at most the passes offered and zero only when none is offered |
| MovieRecorder.LoopRunsWhile | movie_recorder.py:218-223 | every pass before the last one run had `running` set and recorded without raising |
| MovieRecorder.LoopStopsWhen | movie_recorder.py:218-243 | when passes remain, the last pass run had `running` cleared or its recording raised |
| MovieRecorder.QueuedSegmentsWritten | movie_recorder.py:221-239 | every queued segment `count + j` comes from pass `j`, which queued it (recorded without raising, file over 1000 bytes, completed or stopped); its path is that pass's segment path and its size the size of the file that pass left |
| MovieRecorder.PassesQueued | movie_recorder.py:221-235 | conversely, every pass run that recorded a file over 1000 bytes, completed or stopped, with an uploader, has its segment `count + j` queued |
| MovieRecorder.QueuedExactly | movie_recorder.py:221-239 | segment `count + j` is queued iff pass `j` meets the queueing condition |
| MovieRecorder.Session | movie_recorder.py:245-248 | after `start` resets the counter, queued segment `i` was written by pass `i` under `SegmentPath(stamp_i, i)` |
| MovieRecorder.StopSignals | movie_recorder.py:265-285 | nothing is sent to a finished process; SIGINT first; terminate iff SIGINT timed out; kill iff terminate timed out or SIGINT raised; severity strictly increases |
| MovieRecorder.QueueUpload | movie_recorder.py:80-84 | a path is enqueued iff it exists with size > 0; nothing else about the worker changes |
| MovieRecorder.SegmentsAllEnqueued | movie_recorder.py:80-84 | every segment the loop queues (> 1000 bytes) passes the uploader's guard, in order |
| MovieRecorder.UploadFile | movie_recorder.py:60-78 | a missing file is skipped; otherwise the key is `prefix/basename` and a raised transfer is reported, not propagated |
| MovieRecorder.SegmentObjectKey | movie_recorder.py:60-72 | a segment is uploaded under `prefix/<segment name>` and the key parses back to its timestamp and counter |
| WorkQueue.Poll | movie_recorder.py:52-56 | one worker iteration takes the head of the queue, keeps FIFO content, and exits only when stopped and drained |
| WorkQueue.RunIsFifo | movie_recorder.py:50-58 | taken ++ pending is always the enqueued items in order |
| WorkQueue.RunningWorkerStaysAlive | movie_recorder.py:52 | the worker never exits while `running` is set |
| WorkQueue.StoppedWorkerDrains | movie_recorder.py:86-90 | after `stop` the worker still takes every pending item, in order, and only then exits |
| Files.Mp4Files | api.py:179 | the glob keeps exactly the listing's `*.mp4` entries |
| Files.SortByMtime | api.py:245 | the result is a permutation of the input sorted by mtime in the requested direction |
| Files.Latest | api.py:179-185 | None iff there is no `.mp4`; otherwise a listed `.mp4` with the greatest mtime |
| Files.LatestIsNewest | api.py:179-185 | the head of the newest-first sort is a listed file no other file is newer than |
| ScreenRecorder.PatternName | screen_recorder_with_audio.py:109-110 | the output pattern ends in `_%03d.mp4` and has no '/' when the stamp has none |
| ScreenRecorder.DarwinInput | screen_recorder_with_audio.py:118-123 | avfoundation input with `-framerate <fps>` and `-i 1:<device or default>` |
| ScreenRecorder.LinuxInput | screen_recorder_with_audio.py:137-145 | x11grab input with `-framerate <fps>` and `-video_size <probed resolution>` |
| ScreenRecorder.WindowsInput | screen_recorder_with_audio.py:159-165 | gdigrab input with `-framerate <fps>` and the fixed Stereo Mix device |
| ScreenRecorder.InputArgs | screen_recorder_with_audio.py:115-165 | whichever platform is supported, its input block sets `-framerate <fps>` as its second option |
| ScreenRecorder.OutputArgs | screen_recorder_with_audio.py:124-133 | the shared tail holds `-crf <preset>`, `-f segment` and `-segment_time <segment_duration>` |
| ScreenRecorder.OutputOptions | screen_recorder_with_audio.py:124-133 | eighteen options, with the given CRF after `-crf` and the given length after `-segment_time` |
| ScreenRecorder.FfmpegCommand | screen_recorder_with_audio.py:107-178 | an error exactly on an unsupported platform; otherwise `ffmpeg …` ending in the output pattern |
| ScreenRecorder.FfmpegCommandOptions | screen_recorder_with_audio.py:119-176 | every supported command uses the segment muxer with `-segment_time`, the preset CRF and the fps |
| ScreenRecorder.FfmpegCommandInputs | screen_recorder_with_audio.py:115-165 | which capture device each platform's command opens |
| ScreenRecorder.QueueUpload | screen_recorder_with_audio.py:75-78 | every path is enqueued, with no existence or size guard |
| ScreenRecorder.UploadFile | screen_recorder_with_audio.py:56-73 | key `prefix/basename`; the local file is deleted iff the upload succeeded |
| ScreenRecorder.UploadAll | screen_recorder_with_audio.py:46-73 | draining the queue only removes files: what is left is on disk, and every file not queued is still there |
| ScreenRecorder.UploadAllDeletesDelivered | screen_recorder_with_audio.py:46-73 | after the worker drains, exactly the successfully uploaded files are gone from disk |
| ScreenRecorder.StartWatcher | screen_recorder_with_audio.py:229-233 | `known` is exactly the `.mp4` names present at start |
| ScreenRecorder.Newest | screen_recorder_with_audio.py:255-256 | `all_files[-1]` is a listed `.mp4` that no other listed `.mp4` is newer than |
| ScreenRecorder.ReadyFiles | screen_recorder_with_audio.py:241-256 | a file is ready iff it is new, has a stable positive size, more than one file exists and it is not the newest |
| ScreenRecorder.WatchStepAsWritten | screen_recorder_with_audio.py:236-261 | one poll as written: queues the ready new files, then replaces `known` by the current listing |
| ScreenRecorder.WatchStep | screen_recorder_with_audio.py:241-258 | one poll, corrected: queues the ready new files and adds only those to `known` |
| ScreenRecorder.KnownNeverQueuedAsWritten | screen_recorder_with_audio.py:232-261 | a file present at start is never queued by the loop |
| ScreenRecorder.ReadyFileQueued | screen_recorder_with_audio.py:241-258 | in the corrected watcher a new file that is ready at some poll is queued at that poll or earlier |
| ScreenRecorder.CorrectedAddsQueued | screen_recorder_with_audio.py:241-258 | a corrected pass queues only unknown files and adds exactly those to `known` |
| ScreenRecorder.QueuedByPoll | screen_recorder_with_audio.py:238-261 | for a pass that adds what it queues to `known`: if every pass at poll `i` queues a file that is not yet known, that file has been queued at poll `i` or earlier |
| ScreenRecorder.QueuedWhenReady | screen_recorder_with_audio.py:244-258 | a new, present, ready file is queued by the step |
| ScreenRecorder.QueuedOnce | screen_recorder_with_audio.py:241-258 | the corrected watcher never queues a known file and never queues a file twice |
| ScreenRecorder.DisjointPasses | screen_recorder_with_audio.py:238-261 | for any pass that queues only unknown files and adds them to `known`, the queued sets of a run are pairwise disjoint and disjoint from the start |
| ScreenRecorder.ExampleAsWritten | screen_recorder_with_audio.py:254-261 | two polls, a.mp4 then a.mp4 + b.mp4: as written nothing is queued |
| ScreenRecorder.ExampleCorrected | screen_recorder_with_audio.py:254-258 | on the same polls the corrected watcher queues a.mp4 at the second poll |
| ScreenRecorder.WatcherMissesFinishedSegment | screen_recorder_with_audio.py:254-261 | the two runs differ on that input: the finished segment a.mp4 is skipped for good as written |
| ScreenRecorder.QueueAll | screen_recorder_with_audio.py:269-270 | queueing a list of files appends their paths in order |
| ScreenRecorder.StopWatcher | screen_recorder_with_audio.py:263-270 | stop clears `running` and queues every `.mp4` on disk, oldest first, as a permutation of the listing's `.mp4`s |
| Api.VideoUrl | api.py:186-187 | `/api/videos/` followed by a slash-free name |
| Api.StartRecording | api.py:117-159 | 400 while recording with nothing changed; otherwise the session id is overwritten first, success iff the recorder started, and a failure leaves `is_recording` false with a 500 |
| Api.StopRecording | api.py:162-202 | 400 when not recording; on success `current_video` is the name of a listed `.mp4` that no other `.mp4` is newer than (None iff there is none), its URL is returned, the recorder is dropped and `is_recording` cleared; a failure gives 500 and clears `is_recording` |
| Api.StopPicksNewest | api.py:179-185 | when one `.mp4` is strictly newer than the others, a successful stop makes it the current video |
| Api.GetStatus | api.py:205-218 | the status mirrors the state; `video_url` is set iff `current_video` is truthy, and is its URL |
| Api.StatusAfterStop | api.py:181-218 | the reply of a successful stop equals the status read right after |
| Api.StartTwiceRefused | api.py:122-123 | a second start after a successful one is refused with 400 and changes nothing |
| Api.ApplyKeepsConsistent | api.py:144-191 | every endpoint keeps "recording implies a recorder is held" |
| Api.ReplayConsistent | api.py:144-191 | every reachable state holds a recorder while recording |
| Api.StopNeverHitsNone | api.py:167-202 | in a reachable state a stop 500 only ever comes from the recorder's own failure, never from a missing recorder |
| Api.EntryOf | api.py:246-252 | an entry carries the file's basename, its URL, size and mtime |
| Api.Entries | api.py:244-252 | one entry per file, in order |
| Api.Listed | api.py:245-254 | at most 10 `.mp4`s from the listing, newest first |
| Api.ListVideos | api.py:236-254 | empty for a missing directory; otherwise the entries of the first 10 of the newest-first sort, at most 10, mtime non-increasing |
| Api.ListedIsTop | api.py:245-254 | the listed files are the prefix of the newest-first sort |
| Api.EntryListed | api.py:245-254 | every listed file appears as an entry |
| Api.ListedUnlessTenNewer | api.py:245-254 | an `.mp4` is left out only when the 10 listed entries are all at least as new |
| Api.FewVideosAllListed | api.py:254 | with at most 10 `.mp4`s every one of them is listed |
| Api.SelectVideoPath | api.py:276-286 | a truthy explicit path replaces `current_video`; the chosen one is used if on disk (so a truthy explicit path that is missing skips `current_video`); else the newest `.mp4`; else the "No video available" error |
| Api.ExplicitPathWins | api.py:276-279 | an explicit path that exists is always the one analysed |
| Api.AnalysisPrompt | api.py:295-306 | a truthy transcription is wrapped in the question template; else the given prompt; else the default |
| Api.QuestionReadBack | api.py:297-306 | the question can be read back from between the template's quotes |
| Api.Analyze | api.py:259-324 | no video gives the "No video available" failure and a raised transcription its message, both before any call; a chosen path not on disk fails with "Video not found: <path>"; otherwise the analyzer gets that path and the prompt built from the transcription, with thoughts; success iff it replied and the reply folds, with the folded response and thinking; a raised or unfoldable reply gives its message |
| Api.SpokenQuestion | api.py:289-292 | no audio gives no question; otherwise the stripped transcription, or its raised message |
| Api.QuestionReachesGemini | api.py:288-309 | a spoken question reaches the analyzer stripped, inside the template, with thoughts requested |
| Api.AnalyzeSends | api.py:276-309 | with a video on disk and a successful transcription, the analyzer is called with thoughts on and the prompt built from that transcription |
| Api.PromptOfQuestion | api.py:295-301 | a non-empty question gives exactly the question template around it |
| Api.Transcribe | api.py:327-341 | the stripped transcription, or a 500 whose detail starts "Transcription failed: " |
| VideoAnalyzer.NewAnalyzer | video_analyzer.py:23-27 | the argument key, else the environment key, else the "GEMINI_API_KEY not found" error |
| VideoAnalyzer.Transcription | video_analyzer.py:40-84 | a reply text is returned as exactly `Strip` of that text (no edge whitespace, a substring of the reply); a reply without text fails; a raised call propagates |
| VideoAnalyzer.Suffix | video_analyzer.py:134 | `Path.suffix`: empty or a dot followed by a dot-free, slash-free tail of the path |
| VideoAnalyzer.SuffixOfFile | video_analyzer.py:134 | the suffix of `dir/stem.ext` is `.ext` |
| VideoAnalyzer.MimeType | video_analyzer.py:133-141 | the table's type for the lower-cased suffix, `video/mp4` for anything else |
| VideoAnalyzer.MimeTypeIgnoresCase | video_analyzer.py:134-141 | `.MP4` and `.mp4` give the same MIME type |
| VideoAnalyzer.DotFileHasNoSuffix | video_analyzer.py:134-141 | a dot file such as `.mp4` has no suffix and gets the default type |
| VideoAnalyzer.NoSuffixDefault | video_analyzer.py:133-141 | a path without a suffix gets `video/mp4` |
| VideoAnalyzer.RequestFor | video_analyzer.py:144-164 | the request carries the path, its MIME type and the prompt; thoughts are requested iff `include_thinking` |
| VideoAnalyzer.AnswerTexts | video_analyzer.py:183-187 | only non-empty texts of non-thought parts are collected |
| VideoAnalyzer.PartStep | video_analyzer.py:180-187 | one part either appends its answer text or replaces the last thought |
| VideoAnalyzer.AccumulateStep | video_analyzer.py:183-187 | the running response is the "\n"-join of the answer texts seen so far |
| VideoAnalyzer.FoldParts | video_analyzer.py:180-187 | the inner loop over one candidate's parts extends the response and the last thought |
| VideoAnalyzer.FoldCandidate | video_analyzer.py:178-187 | one candidate: an absent content is skipped, a non-iterable part list fails, otherwise its parts extend the reference fold |
| VideoAnalyzer.FoldCandidates | video_analyzer.py:177-187 | the outer loop succeeds iff no candidate has a non-iterable part list, and then matches the reference fold over all parts |
| VideoAnalyzer.FoldResponse | video_analyzer.py:171-193 | the loop equals the reference fold: last thought, joined answers, `response.text` fallback, errors on a non-iterable part list |
| VideoAnalyzer.Folded | video_analyzer.py:171-193 | the reference fold: fails on a non-iterable part list; otherwise the response is the "\n"-join of the answer texts, `response.text` when there are none (None only if that is None too), and the thinking is the last thought |
| VideoAnalyzer.FoldedResponseSplits | video_analyzer.py:183-187 | splitting the response at "\n" gives back the answer texts |
| VideoAnalyzer.ThoughtsStayOut | video_analyzer.py:177-191 | two responses whose candidates carry the same answer parts, however their thought parts differ, fold to the same success or failure and the same response |
| VideoAnalyzer.ThoughtOnlyFallsBack | video_analyzer.py:181-191 | for example, a thought and an empty answer give `response.text` as the response and the thought as the thinking |
| VideoAnalyzer.AnalyzeVideo | video_analyzer.py:86-119 | a missing file raises "Video not found" before any call; otherwise the request is sent and its reply folded or its error propagated |
| VideoAnalyzer.ContextPrompt | video_analyzer.py:212-222 | the prompt opens with the quoted question and ends with the fixed instructions |
| VideoAnalyzer.ContextPromptQuotes | video_analyzer.py:212-216 | a falsy additional context prints "None provided", a truthy one verbatim |
| TwitterService.OrEnv | twitter_service.py:49-52 | a truthy argument wins, else the environment value |
| TwitterService.Resolve | twitter_service.py:49-52 | each credential is resolved by `arg or env` |
| TwitterService.MissingCredentials | twitter_service.py:57-67 | exactly the falsy credentials are listed, in the fixed order |
| TwitterService.ValidateCredentials | twitter_service.py:57-70 | passes iff all four are truthy; otherwise the message joins the missing names with ", " |
| TwitterService.IsConfigured | twitter_service.py:232-238 | true iff all four credentials are truthy |
| TwitterService.NewService | twitter_service.py:33-55 | construction fails exactly when validation of the resolved credentials fails |
| TwitterService.ConstructedIsConfigured | twitter_service.py:49-55 | a constructed service always reports itself configured |
| TwitterService.ArgumentsOverrideEnvironment | twitter_service.py:49-52 | arguments and environment can each supply part of the credentials |
| TwitterService.BeforeLastSpace | twitter_service.py:140 | `rsplit(' ', 1)[0]`: the prefix before the last space, or all when there is none |
| TwitterService.TruncateTweet | twitter_service.py:125-145 | at most 280 characters; short text unchanged; long text is a prefix cut at the last space within 277 (280) characters, or hard-cut, plus "..." |
| TwitterService.TruncationKeepsWholeWords | twitter_service.py:139-145 | with a space in range, the cut falls on a space and the kept part is a prefix of the text |
| TwitterService.TextToPost | twitter_service.py:158-174 | blank text is refused; stripped text of at most 280 is posted as it is; longer stripped text is refused with its length, or with auto-truncation is exactly `truncate_tweet` of the stripped text; accepted text is non-empty and at most 280 |
| TwitterService.ErrorMessage | twitter_service.py:190-206 | "403", then "401", then "429", then "duplicate" in any case select a fixed message; otherwise the raw message |
| TwitterService.PostTweet | twitter_service.py:147-206 | posted iff the text validates and the client replied; count equals the posted text's length, at most 280 |
| TwitterService.Without | twitter_service.py:118-119 | every `c` removed, every other character kept with its multiplicity; a text without `c` is unchanged |
| TwitterService.WithoutAppend | twitter_service.py:118-119 | removal distributes over concatenation, so the kept characters stay in their order |
| TwitterService.Unmarked | twitter_service.py:118-119 | both `re.sub`s: no '*' or '_' is left, every other character is kept with its multiplicity, and text without markers is unchanged |
| TwitterService.UnmarkedAppend | twitter_service.py:118-119 | unmarking distributes over concatenation |
| TwitterService.CleanTweet | twitter_service.py:116-119 | the stripped capture with every '*' and '_' removed and nothing else: any split of the stripped capture cleans piecewise (order kept), and a capture without markers is only stripped |
| TwitterService.ExtractTweet | twitter_service.py:113-123 | None iff no pattern's capture is accepted; otherwise the cleaned first accepted capture, free of '*' and '_', at most 280 |
| TwitterService.FirstWhere | twitter_service.py:113-121 | the patterns are tried in order: None iff none qualifies, else the first index that does |
| TwitterService.ExtractTweetFirst | twitter_service.py:113-121 | patterns are tried in order and the first accepted one decides |
| TwitterService.PostTweetFromArticle | twitter_service.py:208-230 | the extracted tweet, else the truncated fallback, else the "Could not extract tweet" error without a client call |
| VoiceTranscriber.ApiKey | voice_transcriber.py:107-109 | GOOGLE_API_KEY, else GEMINI_API_KEY, else the "No API key found" error |
| VoiceTranscriber.FramesPerChunk | voice_transcriber.py:121-131 | `int(rate * seconds / 1024)`, truncated toward zero |
| VoiceTranscriber.ChunkSize | voice_transcriber.py:131-146 | frames per emitted chunk: `frames_per_chunk` when at least 1, else 1 |
| VoiceTranscriber.DefaultChunkSize | voice_transcriber.py:87-88 | the defaults (16000 Hz, 5 s) give 78 reads per chunk |
| VoiceTranscriber.Leftover | voice_transcriber.py:142-146 | fewer frames than a chunk remain after the last full chunk |
| VoiceTranscriber.ChunkAt | voice_transcriber.py:137-146 | chunk `i` is the concatenation of frames `i*n .. i*n+n-1` |
| VoiceTranscriber.ChunksPartition | voice_transcriber.py:137-146 | the chunks then the leftover concatenate to exactly the recorded audio |
| VoiceTranscriber.ChunksCount | voice_transcriber.py:137-146 | every frame is in exactly one full chunk or the leftover |
| VoiceTranscriber.ChunksSnoc | voice_transcriber.py:138-146 | one more read either completes a chunk or grows the leftover |
| VoiceTranscriber.Step | voice_transcriber.py:135-159 | one iteration: a halt or failed read ends the loop and changes no audio; a read appends the full chunk and possibly the flushed leftover (at most two buffer entries, as an extension); the stop reason changes only when the loop ends |
| VoiceTranscriber.StepTracks | voice_transcriber.py:135-159 | one loop iteration keeps buffer, current chunk and counter in step with the reference chunking |
| VoiceTranscriber.RecordAudio | voice_transcriber.py:119-159 | the loop stops at the first halt, failed read or reached limit; the buffer holds the full chunks of the frames read, plus the leftover only when the limit was reached |
| VoiceTranscriber.ExternalStopDropsLeftover | voice_transcriber.py:149-154 | a duration stop flushes the partial chunk that an external stop drops |
| VoiceTranscriber.ChunkText | voice_transcriber.py:174-206 | a reply text gives exactly `Strip` of it; non-empty iff the call replied with non-blank text; "" on any failure |
| VoiceTranscriber.NonEmpty | voice_transcriber.py:217 | only non-empty texts are kept |
| VoiceTranscriber.NonEmptyExactly | voice_transcriber.py:217-224 | a text is recorded iff it is non-empty and was produced |
| VoiceTranscriber.KeptExactly | voice_transcriber.py:215-224 | a text is recorded iff it is non-empty and some chunk's transcription yielded it |
| VoiceTranscriber.WorkerTakesInOrder | voice_transcriber.py:210-212 | the worker consumes the chunks in the order they were buffered |
| VoiceTranscriber.Summary | voice_transcriber.py:281-288 | none iff nothing was transcribed; otherwise the texts joined with " " |
| VoiceTranscriber.SummarySplits | voice_transcriber.py:285 | splitting the summary at " " gives back the space-free texts |
| VoiceTranscriber.ProcessFrame | voice_transcriber.py:317-347 | every frame is pushed on; only a transcription frame with non-blank text is recorded |
| VoiceTranscriber.LoggerRecordsSpoken | voice_transcriber.py:317-347 | after a stream, pushed frames equal the input and the records are its spoken transcription texts in order |
| VoiceTranscriber.FullTranscription | voice_transcriber.py:349-351 | empty for no records, the one text for one record |
| VoiceTranscriber.FullTranscriptionLines | voice_transcriber.py:349-351 | splitting the full transcription at "\n" gives back the records |

## Left out

- Threads, `time.sleep`, join timeouts and the real subprocess: each `ffmpeg` run, thread and wait is an abstract outcome, and the worker loops are event sequences.
- `datetime.now`/`strftime` and `time.time`: timestamps are opaque strings and the elapsed recording time is a whole-second input.
- Float arithmetic: `size_mb` and the `created_at` ISO string of `list_videos` (entries carry the raw size and mtime instead), and the MB and duration prints.
- VoiceTranscriber.FramesPerChunk: computes the quotient exactly on integers, whereas `int(a * b / 1024)` goes through a float and could differ for products beyond 2^53.
- Regex matching in `extract_tweet_from_article`: the first capture of each pattern is an input; only the pattern order and the post-processing are modelled.
- VideoAnalyzer.MimeType: lower-cases ASCII letters only, where `str.lower` also folds other scripts; every suffix in the table is ASCII.
- TwitterService.ErrorMessage: the "duplicate" test lower-cases ASCII letters only, for the same reason.
- The watcher's re-listing inside one poll: the loop globs again after the 1.5 s of sleeps for each new file, to find the newest, whereas a model poll carries one listing (with the two size readings per file) used for the new files, the stability test and the newest file alike, so a segment that appears during a poll's sleeps is not modelled.
- `Path` normalisation and `glob` details: paths are strings joined with "/", and the glob is a filter on the listing's names ending in ".mp4" (hidden files are not treated specially).
- `str(HTTPException)`: the analyze failure message is modelled as the exception's detail.
- The recorder used by `api.py` is an abstract collaborator with a start and a stop outcome: `api.py` builds it with `screen_index`, `audio_processor` and `accumulate` arguments that `movie_recorder.py` does not accept, and `AudioProcessor` is not part of this model.
- `get_video`, the health check, lifespan set-up of `output_dir` and the analyzer, CORS and FastAPI routing.
- `gemini_video_analysis.py`: a command-line script around one network call.
- Printing, the transcript output files, `wave`/`tempfile` I/O and the Gemini file upload/delete in `_transcribe_chunk` (any failure there is one raised outcome).
- The Pipecat pipeline, transport and runner, and every `main()`/argparse entry point.
- The lazy tweepy `client` property and `get_twitter_service`.

## Findings

| source | as written | input that shows it | evidently intended | confidence | as-written member | corrected member |
|---|---|---|---|---|---|---|
| screen_recorder_with_audio.py:254-261 | a new file skipped because it was the newest is still put into `known_files` by `known_files = current_files` at the end of the poll, so it is never considered again | watcher started on an empty directory; poll 1 sees `a.mp4` (newest, skipped); poll 2 sees `a.mp4` and a newer `b.mp4`, both stable: `a.mp4` is no longer new and is never queued by the loop | the comment at line 254 skips the newest file only because it is still being written; it should be queued once a newer segment exists, i.e. `known` grows only by the files actually queued | not executed | ScreenRecorder.WatcherMissesFinishedSegment | ScreenRecorder.ReadyFileQueued |
