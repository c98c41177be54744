/**
 * `voice_transcriber.py`: the chunked microphone transcriber and the Pipecat
 * transcription logger. The microphone is a sequence of ticks (a read frame
 * with the seconds elapsed at the duration check, a read that raised, or the
 * `running` flag seen cleared); Gemini's replies are outcomes given per chunk.
 */
module VoiceTranscriber {
  import opened Text
  import opened Wrappers
  import WorkQueue

  type Bytes = seq<bv8>

  // ---------------------------------------------------------------- construction

  const NoApiKey: String := "No API key found. Set GOOGLE_API_KEY or GEMINI_API_KEY environment variable."

  /** `os.getenv("GOOGLE_API_KEY") or os.getenv("GEMINI_API_KEY")`, and the ValueError when both are falsy. */
  function ApiKey(google: Option<String>, gemini: Option<String>): (r: Result<String>)
    ensures r.Ok? <==> Truthy(google) || Truthy(gemini)
    ensures Truthy(google) ==> r == Ok(google.value)
    ensures !Truthy(google) && Truthy(gemini) ==> r == Ok(gemini.value)
    ensures r.Err? ==> r.error == NoApiKey
  {
    if Truthy(google) then Ok(google.value)
    else if Truthy(gemini) then Ok(gemini.value)
    else Err(NoApiKey)
  }

  // ---------------------------------------------------------------- chunk arithmetic

  /** Frames asked of the stream per read. */
  const ReadSize: int := 1024

  /**
   * `int(sample_rate * chunk_seconds / 1024)`: the quotient truncated toward
   * zero (the float division is taken as exact).
   */
  function FramesPerChunk(sampleRate: int, chunkSeconds: int): (q: int)
    ensures var x := sampleRate * chunkSeconds;
      && (x >= 0 ==> q * ReadSize <= x < (q + 1) * ReadSize)
      && (x < 0 ==> (q - 1) * ReadSize < x <= q * ReadSize)
  {
    var x := sampleRate * chunkSeconds;
    if x >= 0 then x / ReadSize else -((-x) / ReadSize)
  }

  /**
   * How many frames a chunk emitted on the count branch holds: the count
   * test `frame_count >= frames_per_chunk` passes at the first frame when the
   * quotient is zero or negative.
   */
  function ChunkSize(sampleRate: int, chunkSeconds: int): (n: nat)
    ensures n >= 1
    ensures FramesPerChunk(sampleRate, chunkSeconds) >= 1 ==> n == FramesPerChunk(sampleRate, chunkSeconds)
    ensures FramesPerChunk(sampleRate, chunkSeconds) < 1 ==> n == 1
  {
    var q := FramesPerChunk(sampleRate, chunkSeconds);
    if q >= 1 then q else 1
  }

  /** The default settings, 16 kHz and five seconds, make chunks of 78 reads. */
  lemma DefaultChunkSize()
    ensures ChunkSize(16000, 5) == 78
  {
  }

  // ---------------------------------------------------------------- chunks

  /** The full chunks of `frames`, front to back: each is `n` consecutive frames joined. */
  function Chunks(frames: seq<Bytes>, n: nat): seq<Bytes>
    requires n > 0
    decreases |frames|
  {
    if |frames| < n then [] else [Concat(frames[..n])] + Chunks(frames[n..], n)
  }

  /** The frames after the last full chunk. */
  function Leftover(frames: seq<Bytes>, n: nat): (r: seq<Bytes>)
    requires n > 0
    ensures |r| < n && |r| <= |frames|
    decreases |frames|
  {
    if |frames| < n then frames else Leftover(frames[n..], n)
  }

  /** Chunk `i` is frames `i*n` up to `i*n + n`, joined; together with the leftover they account for every frame. */
  lemma {:induction false} ChunkAt(frames: seq<Bytes>, n: nat, i: nat)
    requires n > 0 && i < |Chunks(frames, n)|
    ensures (i + 1) * n <= |frames|
    ensures Chunks(frames, n)[i] == Concat(frames[i * n..i * n + n])
    decreases i
  {
    if i == 0 {
      assert Chunks(frames, n)[0] == Concat(frames[..n]);
    } else {
      var rest := frames[n..];
      NextMultiple(i - 1, n);
      NextMultiple(i, n);
      var a := (i - 1) * n;
      assert Chunks(frames, n)[i] == Chunks(rest, n)[i - 1];
      ChunkAt(rest, n, i - 1);
      DropSlice(frames, n, a, a + n);
    }
  }

  lemma NextMultiple(i: nat, n: nat)
    ensures 0 <= i * n && (i + 1) * n == i * n + n
  {
  }

  /** A slice of a suffix is the matching slice of the whole. */
  lemma DropSlice<T>(s: seq<T>, k: nat, lo: nat, hi: nat)
    requires k <= |s| && lo <= hi <= |s| - k
    ensures s[k..][lo..hi] == s[k + lo..k + hi]
  {
  }

  /** No frame is lost or repeated: the chunks then the leftover give back every byte, in order. */
  lemma {:induction false} ChunksPartition(frames: seq<Bytes>, n: nat)
    requires n > 0
    ensures Concat(Chunks(frames, n)) + Concat(Leftover(frames, n)) == Concat(frames)
    decreases |frames|
  {
    if |frames| >= n {
      var rest := frames[n..];
      var c := Concat(frames[..n]);
      ChunksPartition(rest, n);
      assert Concat(Chunks(frames, n)) == c + Concat(Chunks(rest, n)) by {
        assert Chunks(frames, n) == [c] + Chunks(rest, n);
        assert ([c] + Chunks(rest, n))[1..] == Chunks(rest, n);
      }
      assert Concat(frames) == c + Concat(rest) by {
        ConcatAppend(frames[..n], rest);
        assert frames[..n] + rest == frames;
      }
    }
  }

  /** Every frame is counted once: `n` per chunk plus the leftover. */
  lemma {:induction false} ChunksCount(frames: seq<Bytes>, n: nat)
    requires n > 0
    ensures |Chunks(frames, n)| * n + |Leftover(frames, n)| == |frames|
    decreases |frames|
  {
    if |frames| >= n {
      var k := |Chunks(frames[n..], n)|;
      ChunksCount(frames[n..], n);
      assert (k + 1) * n == k * n + n;
    }
  }

  /** One more frame either completes a chunk or joins the leftover. */
  lemma {:induction false} ChunksSnoc(frames: seq<Bytes>, f: Bytes, n: nat)
    requires n > 0
    ensures |Leftover(frames, n)| + 1 == n ==>
      Chunks(frames + [f], n) == Chunks(frames, n) + [Concat(Leftover(frames, n) + [f])] && Leftover(frames + [f], n) == []
    ensures |Leftover(frames, n)| + 1 < n ==>
      Chunks(frames + [f], n) == Chunks(frames, n) && Leftover(frames + [f], n) == Leftover(frames, n) + [f]
    decreases |frames|
  {
    var all := frames + [f];
    if |frames| < n {
      if |frames| + 1 == n {
        assert all[..n] == all && all[n..] == [];
      }
    } else {
      assert all[..n] == frames[..n];
      assert all[n..] == frames[n..] + [f];
      ChunksSnoc(frames[n..], f, n);
    }
  }

  // ---------------------------------------------------------------- recording

  /** One pass of the `_record_audio` loop, as the microphone and the flag saw it. */
  datatype Tick =
    | Read(data: Bytes, elapsed: int)  // a frame was read; `elapsed` whole seconds had passed at the duration check
    | ReadRaised                       // the read raised
    | Halted                           // `running` was found cleared at the loop head

  datatype StopReason = StillRunning | ExternalStop | DurationReached | ReadFailed

  /**
   * `self.duration and time.time() - self.start_time >= self.duration`: a
   * duration of None or 0 never ends the recording. Comparing whole elapsed
   * seconds with an integer duration is exact.
   */
  predicate LimitReached(duration: Option<int>, elapsed: int)
  {
    duration.Some? && duration.value != 0 && elapsed >= duration.value
  }

  /** A tick after which the loop goes round again. */
  predicate Continues(duration: Option<int>, t: Tick)
  {
    t.Read? && !LimitReached(duration, t.elapsed)
  }

  /** The frames read during `ticks`, in order. */
  function Frames(ticks: seq<Tick>): seq<Bytes>
  {
    if |ticks| == 0 then []
    else Frames(ticks[..|ticks| - 1]) + (if ticks[|ticks| - 1].Read? then [ticks[|ticks| - 1].data] else [])
  }

  lemma FramesStep(ticks: seq<Tick>, k: nat)
    requires k < |ticks|
    ensures Frames(ticks[..k + 1]) == Frames(ticks[..k]) + (if ticks[k].Read? then [ticks[k].data] else [])
  {
    assert ticks[..k + 1][..k] == ticks[..k];
  }

  /** What the recorder had appended to `audio_buffer` once it stopped for `reason` after reading `frames`. */
  function Emitted(frames: seq<Bytes>, n: nat, reason: StopReason): seq<Bytes>
    requires n > 0
  {
    Chunks(frames, n) + (if reason == DurationReached && Leftover(frames, n) != [] then [Concat(Leftover(frames, n))] else [])
  }

  /** The recorder's locals: the chunks appended to `audio_buffer`, `current_chunk`, `frame_count`, and why it stopped. */
  datatype Recorder = Recorder(buffer: seq<Bytes>, current: seq<Bytes>, frameCount: int, reason: StopReason)

  const FreshRecorder: Recorder := Recorder([], [], 0, StillRunning)

  /**
   * One pass of the `_record_audio` loop: a cleared flag or a failed read
   * stops it; a read frame joins the current chunk, which goes to the buffer
   * once `frame_count >= frames_per_chunk`; then the duration check flushes
   * a non-empty partial chunk and stops.
   */
  function Step(framesPerChunk: int, duration: Option<int>, r: Recorder, t: Tick): (r': Recorder)
    ensures Continues(duration, t) ==> r'.reason == r.reason
    ensures !Continues(duration, t) ==> Ends(r'.reason, t, duration)
    ensures |r.buffer| <= |r'.buffer| <= |r.buffer| + 2 && r'.buffer[..|r.buffer|] == r.buffer
    ensures !t.Read? ==> r'.buffer == r.buffer && r'.current == r.current
  {
    match t
    case Halted => r.(reason := ExternalStop)
    case ReadRaised => r.(reason := ReadFailed)
    case Read(data, elapsed) =>
      var current := r.current + [data];
      var count := r.frameCount + 1;
      var counted :=
        if count >= framesPerChunk then Recorder(r.buffer + [Concat(current)], [], 0, r.reason)
        else Recorder(r.buffer, current, count, r.reason);
      if LimitReached(duration, elapsed) then
        var flushed := if counted.current != [] then counted.buffer + [Concat(counted.current)] else counted.buffer;
        counted.(buffer := flushed, reason := DurationReached)
      else counted
  }

  /** A running recorder that has read `frames`: full chunks in the buffer, the rest pending. */
  predicate Tracks(r: Recorder, frames: seq<Bytes>, n: nat)
    requires n > 0
  {
    && r.reason == StillRunning
    && r.buffer == Chunks(frames, n)
    && r.current == Leftover(frames, n)
    && r.frameCount == |r.current|
  }

  /** The tick that stopped the loop for `reason`. */
  predicate Ends(reason: StopReason, t: Tick, duration: Option<int>)
  {
    || (reason == ExternalStop && t.Halted?)
    || (reason == ReadFailed && t.ReadRaised?)
    || (reason == DurationReached && t.Read? && LimitReached(duration, t.elapsed))
  }

  /** One pass keeps the buffer equal to the chunks of the frames read so far, or stops with what `Emitted` says. */
  lemma StepTracks(framesPerChunk: int, n: nat, duration: Option<int>, r: Recorder, frames: seq<Bytes>, t: Tick)
    requires n == (if framesPerChunk >= 1 then framesPerChunk else 1)
    requires Tracks(r, frames, n)
    ensures var r' := Step(framesPerChunk, duration, r, t);
      var frames' := frames + (if t.Read? then [t.data] else []);
      && (Continues(duration, t) ==> Tracks(r', frames', n))
      && (!Continues(duration, t) ==>
            && Ends(r'.reason, t, duration)
            && r'.buffer == Emitted(frames', n, r'.reason))
  {
    if t.Read? {
      ChunksSnoc(frames, t.data, n);
    } else {
      assert frames + [] == frames;
    }
  }

  /**
   * `_record_audio`: reads frames while running, appends a chunk to the
   * buffer each time `frames_per_chunk` frames have gathered, and stops on a
   * cleared flag, a failed read, or the duration limit. Only the duration
   * stop flushes the partial chunk; on the other two it is dropped. `used`
   * is how many ticks the loop consumed.
   */
  method RecordAudio(sampleRate: int, chunkSeconds: int, duration: Option<int>, ticks: seq<Tick>)
    returns (buffer: seq<Bytes>, used: nat, reason: StopReason)
    ensures used <= |ticks|
    ensures reason == StillRunning <==> used == |ticks| && forall j :: 0 <= j < |ticks| ==> Continues(duration, ticks[j])
    ensures reason != StillRunning ==> 0 < used && forall j :: 0 <= j < used - 1 ==> Continues(duration, ticks[j])
    ensures reason == ExternalStop ==> ticks[used - 1].Halted?
    ensures reason == ReadFailed ==> ticks[used - 1].ReadRaised?
    ensures reason == DurationReached ==> ticks[used - 1].Read? && LimitReached(duration, ticks[used - 1].elapsed)
    ensures buffer == Emitted(Frames(ticks[..used]), ChunkSize(sampleRate, chunkSeconds), reason)
  {
    var framesPerChunk := FramesPerChunk(sampleRate, chunkSeconds);
    ghost var n := ChunkSize(sampleRate, chunkSeconds);
    var rec := FreshRecorder;
    used := 0;
    while used < |ticks| && rec.reason == StillRunning
      invariant used <= |ticks|
      invariant rec.reason == StillRunning ==>
        Tracks(rec, Frames(ticks[..used]), n) && forall j :: 0 <= j < used ==> Continues(duration, ticks[j])
      invariant rec.reason != StillRunning ==>
        && 0 < used
        && (forall j :: 0 <= j < used - 1 ==> Continues(duration, ticks[j]))
        && Ends(rec.reason, ticks[used - 1], duration)
        && rec.buffer == Emitted(Frames(ticks[..used]), n, rec.reason)
    {
      FramesStep(ticks, used);
      StepTracks(framesPerChunk, n, duration, rec, Frames(ticks[..used]), ticks[used]);
      rec := Step(framesPerChunk, duration, rec, ticks[used]);
      used := used + 1;
    }
    buffer, reason := rec.buffer, rec.reason;
  }

  /**
   * Stopping by hand loses the partial chunk that the duration limit would
   * have kept: with the same frames read, the two buffers differ exactly by
   * that chunk.
   */
  lemma ExternalStopDropsLeftover(frames: seq<Bytes>, n: nat)
    requires n > 0 && Leftover(frames, n) != []
    ensures Emitted(frames, n, DurationReached) == Emitted(frames, n, ExternalStop) + [Concat(Leftover(frames, n))]
  {
  }

  // ---------------------------------------------------------------- transcription

  /**
   * `_transcribe_chunk`: the reply's text stripped, or "" when the reply has
   * no text or any step of the call raised.
   */
  function ChunkText(reply: Remote<Option<String>>): (t: String)
    ensures t != [] <==> reply.Replied? && reply.reply.Some? && !AllSpace(reply.reply.value)
    ensures t != [] ==> !IsSpace(t[0]) && !IsSpace(t[|t| - 1]) && exists i :: OccursAt(reply.reply.value, t, i)
    ensures reply.Replied? && reply.reply.Some? ==> t == Strip(reply.reply.value)
  {
    if reply.Replied? && Truthy(reply.reply) then
      var s := Strip(reply.reply.value);
      assert s != [] ==> OccursAt(reply.reply.value, s, LeadingSpace(reply.reply.value));
      s
    else []
  }

  /** The non-empty texts, in order: what `_transcription_worker` appends to `transcriptions`. */
  function NonEmpty(texts: seq<String>): (r: seq<String>)
    ensures |r| <= |texts|
    ensures forall i :: 0 <= i < |r| ==> r[i] != []
  {
    if |texts| == 0 then []
    else NonEmpty(texts[..|texts| - 1]) + (if texts[|texts| - 1] != [] then [texts[|texts| - 1]] else [])
  }

  /** The worker's texts for the replies to the chunks it took, in the order it took them. */
  function Kept(replies: seq<Remote<Option<String>>>): seq<String>
  {
    NonEmpty(seq(|replies|, i requires 0 <= i < |replies| => ChunkText(replies[i])))
  }

  /** Filtering is done text by text: the texts kept from two runs are those of each, in order. */
  lemma {:induction false} NonEmptyAppend(a: seq<String>, b: seq<String>)
    ensures NonEmpty(a + b) == NonEmpty(a) + NonEmpty(b)
    decreases |b|
  {
    if |b| == 0 {
      assert a + b == a;
    } else {
      var ab := a + b;
      assert ab[..|ab| - 1] == a + b[..|b| - 1];
      assert ab[|ab| - 1] == b[|b| - 1];
      NonEmptyAppend(a, b[..|b| - 1]);
    }
  }

  /** A text is kept exactly when it is one of the texts and is not empty. */
  lemma {:induction false} NonEmptyExactly(texts: seq<String>, t: String)
    ensures t in NonEmpty(texts) <==> t != [] && t in texts
    decreases |texts|
  {
    if |texts| > 0 {
      var init := texts[..|texts| - 1];
      NonEmptyExactly(init, t);
      assert texts == init + [texts[|texts| - 1]];
    }
  }

  /** So a reply's text is kept exactly when it is not blank, and every kept text came from some reply. */
  lemma KeptExactly(replies: seq<Remote<Option<String>>>, t: String)
    ensures t in Kept(replies) <==> t != [] && exists i :: 0 <= i < |replies| && ChunkText(replies[i]) == t
  {
    var texts := seq(|replies|, i requires 0 <= i < |replies| => ChunkText(replies[i]));
    NonEmptyExactly(texts, t);
    if t in texts {
      var i :| 0 <= i < |texts| && texts[i] == t;
      assert ChunkText(replies[i]) == t;
    }
    if exists i :: 0 <= i < |replies| && ChunkText(replies[i]) == t {
      var i :| 0 <= i < |replies| && ChunkText(replies[i]) == t;
      assert texts[i] == t;
    }
  }

  /**
   * The worker takes chunks in the order the recorder appended them: from a
   * fresh worker, what it has taken is always a prefix of what was enqueued.
   */
  lemma WorkerTakesInOrder(events: seq<WorkQueue.Event<Bytes>>)
    ensures var w := WorkQueue.Run(WorkQueue.Start(), events);
      |w.taken| <= |WorkQueue.Enqueued(events)| && w.taken == WorkQueue.Enqueued(events)[..|w.taken|]
  {
    var w := WorkQueue.Run(WorkQueue.Start(), events);
    WorkQueue.RunIsFifo(WorkQueue.Start(), events);
    assert w.taken + w.pending == WorkQueue.Enqueued(events);
    assert (w.taken + w.pending)[..|w.taken|] == w.taken;
  }

  // ---------------------------------------------------------------- summary

  /** `_print_summary`: the kept texts joined by spaces, or None for "No transcriptions captured.". */
  function Summary(texts: seq<String>): (r: Option<String>)
    ensures r.None? <==> texts == []
  {
    if texts == [] then None else Some(Join(" ", texts))
  }

  /** Single-word texts can be told apart again in the summary. */
  lemma SummarySplits(texts: seq<String>)
    requires texts != []
    requires forall i :: 0 <= i < |texts| ==> ' ' !in texts[i]
    ensures SplitOn(Summary(texts).value, ' ') == texts
  {
    SplitOnJoin(texts, ' ');
  }

  // ---------------------------------------------------------------- Pipecat logger

  datatype PipeFrame =
    | TranscriptionFrame(text: Option<String>)
    | TextFrame(text: Option<String>)
    | OtherFrame

  /** `text and text.strip()`. */
  predicate Spoken(text: Option<String>)
  {
    Truthy(text) && !AllSpace(text.value)
  }

  /** The logger's `transcriptions`, and the frames it pushed downstream. */
  datatype Logger = Logger(transcriptions: seq<String>, pushed: seq<PipeFrame>)

  const FreshLogger: Logger := Logger([], [])

  /**
   * `process_frame`: a transcription frame with a non-blank text is recorded
   * as it is (unstripped); AI text frames are only printed; every frame is
   * pushed on.
   */
  function ProcessFrame(l: Logger, f: PipeFrame): (r: Logger)
    ensures r.pushed == l.pushed + [f]
    ensures f.TranscriptionFrame? && Spoken(f.text) ==> r.transcriptions == l.transcriptions + [f.text.value]
    ensures !(f.TranscriptionFrame? && Spoken(f.text)) ==> r.transcriptions == l.transcriptions
  {
    var recorded := if f.TranscriptionFrame? && Spoken(f.text) then l.transcriptions + [f.text.value] else l.transcriptions;
    Logger(recorded, l.pushed + [f])
  }

  /** The logger after a run of frames. */
  function ProcessAll(l: Logger, frames: seq<PipeFrame>): Logger
  {
    if |frames| == 0 then l else ProcessFrame(ProcessAll(l, frames[..|frames| - 1]), frames[|frames| - 1])
  }

  /** The spoken transcription texts of a run of frames, front to back. */
  function SpokenTexts(frames: seq<PipeFrame>): seq<String>
  {
    if |frames| == 0 then []
    else (if frames[0].TranscriptionFrame? && Spoken(frames[0].text) then [frames[0].text.value] else []) + SpokenTexts(frames[1..])
  }

  lemma {:induction false} SpokenTextsSnoc(frames: seq<PipeFrame>, f: PipeFrame)
    ensures SpokenTexts(frames + [f]) == SpokenTexts(frames) + (if f.TranscriptionFrame? && Spoken(f.text) then [f.text.value] else [])
    decreases |frames|
  {
    if |frames| == 0 {
      assert ([] + [f])[1..] == [];
    } else {
      assert (frames + [f])[1..] == frames[1..] + [f];
      SpokenTextsSnoc(frames[1..], f);
    }
  }

  /**
   * A fresh logger passes every frame on, in order, and records exactly the
   * spoken transcription texts, in order.
   */
  lemma {:induction false} LoggerRecordsSpoken(frames: seq<PipeFrame>)
    ensures ProcessAll(FreshLogger, frames).pushed == frames
    ensures ProcessAll(FreshLogger, frames).transcriptions == SpokenTexts(frames)
    decreases |frames|
  {
    if |frames| > 0 {
      var init := frames[..|frames| - 1];
      var f := frames[|frames| - 1];
      LoggerRecordsSpoken(init);
      SpokenTextsSnoc(init, f);
      assert init + [f] == frames;
    }
  }

  /** `get_full_transcription`: the recorded texts joined by newlines. */
  function FullTranscription(l: Logger): (r: String)
    ensures l.transcriptions == [] ==> r == []
    ensures |l.transcriptions| == 1 ==> r == l.transcriptions[0]
  {
    Join("\n", l.transcriptions)
  }

  /** Texts without newlines come back one per line. */
  lemma FullTranscriptionLines(l: Logger)
    requires l.transcriptions != []
    requires forall i :: 0 <= i < |l.transcriptions| ==> '\n' !in l.transcriptions[i]
    ensures SplitOn(FullTranscription(l), '\n') == l.transcriptions
  {
    SplitOnJoin(l.transcriptions, '\n');
  }
}
