/**
 * `video_analyzer.py`: the Gemini-backed analyzer used by the API. The SDK is
 * an input: `generate_content` is described by the response it returned (its
 * candidates, their parts, and its `text` property) or the message it raised;
 * reading the video file and the thread-pool hop are not modelled.
 */
module VideoAnalyzer {
  import opened Text
  import opened Wrappers

  // ---------------------------------------------------------------- construction

  const MissingKey: String := "GEMINI_API_KEY not found in environment"

  /** `VideoAnalyzer(api_key)`: the key in use is `api_key or os.getenv("GEMINI_API_KEY")`. */
  function NewAnalyzer(apiKey: Option<String>, env: Option<String>): (r: Result<String>)
    ensures r.Ok? <==> Truthy(apiKey) || Truthy(env)
    ensures r.Ok? ==> |r.value| > 0
    ensures Truthy(apiKey) ==> r == Ok(apiKey.value)
    ensures !Truthy(apiKey) && Truthy(env) ==> r == Ok(env.value)
    ensures r.Err? ==> r.error == MissingKey
  {
    var key := if Truthy(apiKey) then apiKey else env;
    if Truthy(key) then Ok(key.value) else Err(MissingKey)
  }

  // ---------------------------------------------------------------- transcription

  const NoneHasNoStrip: String := "'NoneType' object has no attribute 'strip'"

  /**
   * `_transcribe_sync`: `response.text.strip()`. A response without text makes
   * `strip` raise; an exception of the SDK propagates.
   */
  function Transcription(reply: Remote<Option<String>>): (r: Result<String>)
    ensures r.Ok? <==> reply.Replied? && reply.reply.Some?
    ensures r.Ok? ==> r.value == Strip(reply.reply.value)
    ensures r.Ok? ==> var text := reply.reply.value;
      && (r.value == [] <==> AllSpace(text))
      && (r.value == [] || (!IsSpace(r.value[0]) && !IsSpace(r.value[|r.value| - 1])))
      && exists i :: OccursAt(text, r.value, i)
    ensures reply.Raised? ==> r == Err(reply.message)
  {
    match reply
    case Raised(m) => Err(m)
    case Replied(None) => Err(NoneHasNoStrip)
    case Replied(Some(text)) =>
      var s := Strip(text);
      assert OccursAt(text, s, LeadingSpace(text));
      Ok(s)
  }

  // ---------------------------------------------------------------- MIME type

  /**
   * `Path(p).suffix`: the final component from its last '.', or "" when it has
   * no '.', or only a leading or trailing one.
   */
  function Suffix(path: String): (r: String)
    ensures r == [] || (|r| >= 2 && r[0] == '.' && '.' !in r[1..] && '/' !in r)
    ensures r != [] ==> IsSuffix(r, path)
  {
    var name := Basename(path);
    var i := LastIndexOf(name, '.');
    if 0 < i < |name| - 1 then
      assert '.' !in name[i..][1..] by {
        assert forall j :: 0 <= j < |name[i..][1..]| ==> name[i..][1..][j] == name[i + 1 + j];
      }
      name[i..]
    else ""
  }

  /** `mime_types` in `_analyze_sync`. */
  const MimeTypes: map<String, String> := map[
    ".mp4" := "video/mp4",
    ".webm" := "video/webm",
    ".mov" := "video/quicktime",
    ".avi" := "video/x-msvideo"]

  const DefaultMime: String := "video/mp4"

  /** `mime_types.get(Path(p).suffix.lower(), 'video/mp4')`. */
  function MimeType(path: String): (m: String)
    ensures m in MimeTypes.Values
    ensures LowerAscii(Suffix(path)) in MimeTypes ==> m == MimeTypes[LowerAscii(Suffix(path))]
    ensures LowerAscii(Suffix(path)) !in MimeTypes ==> m == DefaultMime
  {
    assert MimeTypes[".mp4"] == DefaultMime;
    var ext := LowerAscii(Suffix(path));
    if ext in MimeTypes then MimeTypes[ext] else DefaultMime
  }

  /**
   * The suffix of a file `stem + ext` in any directory is `ext` whenever the
   * stem is non-empty and the extension is one '.' followed by at least one
   * other character: only the extension decides the MIME type.
   */
  lemma SuffixOfFile(dir: String, stem: String, ext: String)
    requires stem != [] && '/' !in stem
    requires |ext| >= 2 && ext[0] == '.' && '.' !in ext[1..] && '/' !in ext
    ensures Suffix(JoinPath(dir, stem + ext)) == ext
  {
    BasenameOfJoin(dir, stem + ext);
    assert stem + ext == stem + ['.'] + ext[1..];
    LastIndexOfAfter(stem, '.', ext[1..]);
  }

  /** Lowering the case leaves every character that is not an ASCII letter alone. */
  lemma LowerAsciiKeeps(s: String, c: char)
    requires !('A' <= c <= 'Z') && !('a' <= c <= 'z')
    ensures forall i :: 0 <= i < |s| ==> (s[i] == c <==> LowerAscii(s)[i] == c)
    ensures c in LowerAscii(s) <==> c in s
  {
    var t := LowerAscii(s);
    if c in t {
      var i :| 0 <= i < |t| && t[i] == c;
      assert s[i] == c;
    }
    if c in s {
      var i :| 0 <= i < |s| && s[i] == c;
      assert t[i] == c;
    }
  }

  /** Lowering the case twice is lowering it once. */
  lemma LowerAsciiIdempotent(s: String)
    ensures LowerAscii(LowerAscii(s)) == LowerAscii(s)
  {
  }

  /**
   * The extension is matched without regard to case: a file named with an
   * upper-case extension gets the same MIME type as its lower-case twin.
   */
  lemma MimeTypeIgnoresCase(dir: String, stem: String, ext: String)
    requires stem != [] && '/' !in stem
    requires |ext| >= 2 && ext[0] == '.' && '.' !in ext[1..] && '/' !in ext
    ensures MimeType(JoinPath(dir, stem + ext)) == MimeType(JoinPath(dir, stem + LowerAscii(ext)))
  {
    var low := LowerAscii(ext);
    LowerAsciiKeeps(ext, '.');
    LowerAsciiKeeps(ext, '/');
    LowerAsciiKeeps(ext[1..], '.');
    assert low[1..] == LowerAscii(ext[1..]);
    SuffixOfFile(dir, stem, ext);
    SuffixOfFile(dir, stem, low);
    LowerAsciiIdempotent(ext);
  }

  /**
   * A name whose only dot is its first character has no suffix, so it gets
   * the default type whatever follows the dot.
   */
  lemma DotFileHasNoSuffix(dir: String, name: String)
    requires |name| > 0 && name[0] == '.' && '.' !in name[1..] && '/' !in name
    ensures Suffix(JoinPath(dir, name)) == []
    ensures MimeType(JoinPath(dir, name)) == DefaultMime
  {
    var path := JoinPath(dir, name);
    assert LastIndexOf(Basename(path), '.') == 0 by {
      BasenameOfJoin(dir, name);
      var none: String := [];
      assert name == none + ['.'] + name[1..];
      LastIndexOfAfter(none, '.', name[1..]);
    }
    NoSuffixDefault(path);
  }

  /** A path without a suffix gets the default type. */
  lemma NoSuffixDefault(path: String)
    requires Suffix(path) == []
    ensures MimeType(path) == DefaultMime
  {
    assert LowerAscii(Suffix(path)) == [];
  }

  // ---------------------------------------------------------------- the request

  /**
   * What `_analyze_sync` sends: the video file (known by its path; its bytes
   * are not modelled), the MIME type, the prompt, and whether a thinking
   * configuration is attached. The model name, media resolution and
   * temperature are fixed.
   */
  datatype Request = Request(path: String, mimeType: String, prompt: String, includeThoughts: bool)

  function RequestFor(path: String, prompt: String, includeThinking: bool): (q: Request)
    ensures q.path == path && q.prompt == prompt
    ensures q.mimeType == MimeType(path)
    ensures q.includeThoughts <==> includeThinking
  {
    Request(path, MimeType(path), prompt, includeThinking)
  }

  // ---------------------------------------------------------------- the response

  /** A part of a candidate; `text` is None when the part carries none. */
  datatype Part = Part(thought: bool, text: Option<String>)

  /** A candidate's `content.parts`; `content` None stands for a missing or empty content. */
  datatype Content = Content(parts: Option<seq<Part>>)

  datatype Candidate = Candidate(content: Option<Content>)

  datatype Response = Response(candidates: seq<Candidate>, text: Option<String>)

  /** The dictionary `_analyze_sync` returns. */
  datatype Analysis = Analysis(response: Option<String>, thinking: Option<String>)

  const NoneNotIterable: String := "'NoneType' object is not iterable"

  /** Iterating the candidate's parts raises: the content is there but has no parts list. */
  predicate Broken(c: Candidate)
  {
    c.content.Some? && c.content.value.parts.None?
  }

  /** Some candidate of `cs` has a content without a parts list (stated front to back for the loop). */
  predicate AnyBroken(cs: seq<Candidate>)
  {
    |cs| > 0 && (AnyBroken(cs[..|cs| - 1]) || Broken(cs[|cs| - 1]))
  }

  lemma {:induction false} AnyBrokenExists(cs: seq<Candidate>)
    ensures AnyBroken(cs) <==> exists k :: 0 <= k < |cs| && Broken(cs[k])
    decreases |cs|
  {
    if |cs| > 0 {
      var init := cs[..|cs| - 1];
      AnyBrokenExists(init);
      assert forall k :: 0 <= k < |init| ==> init[k] == cs[k];
    }
  }

  /** The parts the loop visits for one candidate. */
  function PartsOf(c: Candidate): seq<Part>
  {
    if c.content.Some? && c.content.value.parts.Some? then c.content.value.parts.value else []
  }

  /** Every part visited, candidate by candidate, in order. */
  function AllParts(cs: seq<Candidate>): seq<Part>
  {
    if |cs| == 0 then [] else AllParts(cs[..|cs| - 1]) + PartsOf(cs[|cs| - 1])
  }

  /** A part whose text goes into the response: not a thought, and a non-empty text. */
  predicate Answers(p: Part)
  {
    !p.thought && Truthy(p.text)
  }

  /** The texts of the answering parts, in order. */
  function AnswerTexts(ps: seq<Part>): (r: seq<String>)
    ensures forall i :: 0 <= i < |r| ==> |r[i]| > 0
  {
    if |ps| == 0 then []
    else AnswerTexts(ps[..|ps| - 1]) + (if Answers(ps[|ps| - 1]) then [ps[|ps| - 1].text.value] else [])
  }

  /** The text of the last thought part (None when there is none, or when that part has no text). */
  function LastThought(ps: seq<Part>): Option<String>
  {
    if |ps| == 0 then None
    else if ps[|ps| - 1].thought then ps[|ps| - 1].text
    else LastThought(ps[..|ps| - 1])
  }

  /**
   * The intended result of the folding: the answering texts joined by
   * newlines, or the response's own `text` when there are none; and the last
   * thought.
   */
  function Folded(resp: Response): (r: Result<Analysis>)
    ensures r.Err? ==> r.error == NoneNotIterable
    ensures r.Ok? ==> (r.value.response.None? <==> |AnswerTexts(AllParts(resp.candidates))| == 0 && resp.text.None?)
    ensures r.Ok? && |AnswerTexts(AllParts(resp.candidates))| > 0 ==>
      r.value.response == Some(Join("\n", AnswerTexts(AllParts(resp.candidates))))
    ensures r.Ok? ==> r.value.thinking == LastThought(AllParts(resp.candidates))
  {
    if exists k :: 0 <= k < |resp.candidates| && Broken(resp.candidates[k]) then Err(NoneNotIterable)
    else
      var parts := AllParts(resp.candidates);
      Ok(Analysis(if Accumulated(parts).Some? then Accumulated(parts) else resp.text, LastThought(parts)))
  }

  lemma AllPartsStep(cs: seq<Candidate>, i: nat)
    requires i < |cs|
    ensures AllParts(cs[..i + 1]) == AllParts(cs[..i]) + PartsOf(cs[i])
  {
    assert cs[..i + 1][..i] == cs[..i];
  }

  lemma PartStep(seen: seq<Part>, p: Part)
    ensures AnswerTexts(seen + [p]) == AnswerTexts(seen) + (if Answers(p) then [p.text.value] else [])
    ensures LastThought(seen + [p]) == if p.thought then p.text else LastThought(seen)
  {
    assert (seen + [p])[..|seen|] == seen;
  }

  /** A join of non-empty parts is non-empty. */
  lemma JoinNonEmpty(sep: String, parts: seq<String>)
    requires |parts| > 0 && |parts[0]| > 0
    ensures |Join(sep, parts)| > 0
  {
  }

  /** The accumulated `result["response"]`: None until the first answering text. */
  function Accumulated(ps: seq<Part>): Option<String>
  {
    var texts := AnswerTexts(ps);
    if |texts| > 0 then Some(Join("\n", texts)) else None
  }

  /** One part of the inner loop. */
  lemma AccumulateStep(seen: seq<Part>, p: Part)
    ensures Accumulated(seen + [p]) ==
      if !Answers(p) then Accumulated(seen)
      else if Accumulated(seen).Some? then Some(Accumulated(seen).value + "\n" + p.text.value)
      else Some(p.text.value)
    ensures Accumulated(seen).Some? ==> |Accumulated(seen).value| > 0
  {
    PartStep(seen, p);
    var texts := AnswerTexts(seen);
    if |texts| > 0 {
      JoinNonEmpty("\n", texts);
      if Answers(p) {
        JoinSnoc("\n", texts, p.text.value);
        assert AnswerTexts(seen + [p]) == texts + [p.text.value];
        assert Accumulated(seen) == Some(Join("\n", texts));
        assert Accumulated(seen + [p]) == Some(Join("\n", texts + [p.text.value]));
      } else {
        assert AnswerTexts(seen + [p]) == texts;
      }
    } else if Answers(p) {
      assert AnswerTexts(seen + [p]) == [p.text.value];
    } else {
      assert AnswerTexts(seen + [p]) == texts;
    }
  }

  /**
   * The inner loop of `_analyze_sync` over one candidate's parts: a thought
   * replaces the thinking, a non-empty text is appended to the response.
   */
  method FoldParts(parts: seq<Part>, response: Option<String>, thinking: Option<String>, ghost before: seq<Part>)
    returns (response': Option<String>, thinking': Option<String>)
    requires response == Accumulated(before) && thinking == LastThought(before)
    ensures response' == Accumulated(before + parts) && thinking' == LastThought(before + parts)
  {
    response', thinking' := response, thinking;
    assert before + parts[..0] == before;
    var j := 0;
    while j < |parts|
      invariant 0 <= j <= |parts|
      invariant response' == Accumulated(before + parts[..j])
      invariant thinking' == LastThought(before + parts[..j])
    {
      var part := parts[j];
      ghost var seen := before + parts[..j];
      assert before + parts[..j + 1] == seen + [part];
      AccumulateStep(seen, part);
      PartStep(seen, part);
      if part.thought {
        thinking' := part.text;
      } else if part.text.Some? && part.text.value != [] {
        if response'.Some? && response'.value != [] {
          response' := Some(response'.value + "\n" + part.text.value);
        } else {
          response' := Some(part.text.value);
        }
      }
      j := j + 1;
    }
    assert parts[..j] == parts;
  }

  /**
   * One candidate of the outer loop: a missing content is skipped, a content
   * without a parts list raises, and otherwise its parts are folded in.
   */
  method FoldCandidate(candidate: Candidate, response: Option<String>, thinking: Option<String>, ghost before: seq<Part>)
    returns (ok: bool, response': Option<String>, thinking': Option<String>)
    requires response == Accumulated(before) && thinking == LastThought(before)
    ensures ok <==> !Broken(candidate)
    ensures ok ==> response' == Accumulated(before + PartsOf(candidate)) && thinking' == LastThought(before + PartsOf(candidate))
  {
    if candidate.content.None? {
      assert before + PartsOf(candidate) == before;
      return true, response, thinking;
    }
    if candidate.content.value.parts.None? {
      return false, response, thinking;
    }
    ok := true;
    response', thinking' := FoldParts(candidate.content.value.parts.value, response, thinking, before);
  }

  /**
   * The outer loop of `_analyze_sync` over the candidates: it stops at the
   * first candidate whose parts cannot be iterated, and otherwise folds every
   * part of every candidate in order.
   */
  method FoldCandidates(cs: seq<Candidate>) returns (ok: bool, response: Option<String>, thinking: Option<String>)
    ensures ok <==> forall k :: 0 <= k < |cs| ==> !Broken(cs[k])
    ensures ok ==> response == Accumulated(AllParts(cs)) && thinking == LastThought(AllParts(cs))
  {
    response, thinking := None, None;
    ghost var seen: seq<Part> := [];
    var i := 0;
    while i < |cs|
      invariant 0 <= i <= |cs|
      invariant !AnyBroken(cs[..i])
      invariant seen == AllParts(cs[..i])
      invariant response == Accumulated(seen) && thinking == LastThought(seen)
    {
      AllPartsStep(cs, i);
      assert cs[..i + 1][..i] == cs[..i];
      ok, response, thinking := FoldCandidate(cs[i], response, thinking, seen);
      if !ok {
        return;
      }
      seen := seen + PartsOf(cs[i]);
      i := i + 1;
    }
    assert cs[..i] == cs;
    AnyBrokenExists(cs);
    ok := true;
  }

  /**
   * `_analyze_sync` after the call: the loop over the candidates, then the
   * fallback to `response.text`.
   */
  method FoldResponse(resp: Response) returns (r: Result<Analysis>)
    ensures r == Folded(resp)
  {
    var ok, response, thinking := FoldCandidates(resp.candidates);
    if !ok {
      return Err(NoneNotIterable);
    }
    if response.None? {
      response := resp.text;
    }
    return Ok(Analysis(response, thinking));
  }

  /**
   * No answering text is lost or merged: when no text holds a newline,
   * splitting the folded response at newlines gives back the answering texts.
   */
  lemma FoldedResponseSplits(resp: Response)
    requires Folded(resp).Ok?
    requires |AnswerTexts(AllParts(resp.candidates))| > 0
    requires forall i :: 0 <= i < |AnswerTexts(AllParts(resp.candidates))| ==> '\n' !in AnswerTexts(AllParts(resp.candidates))[i]
    ensures Folded(resp).value.response.Some?
    ensures SplitOn(Folded(resp).value.response.value, '\n') == AnswerTexts(AllParts(resp.candidates))
  {
    SplitOnJoin(AnswerTexts(AllParts(resp.candidates)), '\n');
  }

  /** Two parts that differ at most in the text of a thought. */
  predicate SameAnswer(p: Part, q: Part)
  {
    p.thought == q.thought && (!p.thought ==> p.text == q.text)
  }

  predicate SameAnswers(ps: seq<Part>, qs: seq<Part>)
  {
    |ps| == |qs| && forall i :: 0 <= i < |ps| ==> SameAnswer(ps[i], qs[i])
  }

  /** Two candidates of the same shape whose parts differ at most in the texts of thoughts. */
  predicate SameCandidateAnswers(c: Candidate, d: Candidate)
  {
    && c.content.Some? == d.content.Some?
    && (c.content.Some? ==> c.content.value.parts.Some? == d.content.value.parts.Some?)
    && SameAnswers(PartsOf(c), PartsOf(d))
  }

  lemma {:induction false} AnswerTextsIgnoreThoughts(ps: seq<Part>, qs: seq<Part>)
    requires SameAnswers(ps, qs)
    ensures AnswerTexts(ps) == AnswerTexts(qs)
    decreases |ps|
  {
    if |ps| > 0 {
      var n := |ps| - 1;
      assert SameAnswers(ps[..n], qs[..n]) by {
        assert forall i :: 0 <= i < n ==> ps[..n][i] == ps[i] && qs[..n][i] == qs[i];
      }
      AnswerTextsIgnoreThoughts(ps[..n], qs[..n]);
      assert SameAnswer(ps[n], qs[n]);
    }
  }

  lemma SameAnswersAppend(a: seq<Part>, b: seq<Part>, c: seq<Part>, d: seq<Part>)
    requires SameAnswers(a, b) && SameAnswers(c, d)
    ensures SameAnswers(a + c, b + d)
  {
    forall i | 0 <= i < |a + c| ensures SameAnswer((a + c)[i], (b + d)[i]) {
      if i < |a| {
        assert (a + c)[i] == a[i] && (b + d)[i] == b[i];
      } else {
        assert (a + c)[i] == c[i - |a|] && (b + d)[i] == d[i - |a|];
      }
    }
  }

  lemma {:induction false} AllPartsIgnoreThoughts(cs: seq<Candidate>, ds: seq<Candidate>)
    requires |cs| == |ds| && forall k :: 0 <= k < |cs| ==> SameCandidateAnswers(cs[k], ds[k])
    ensures SameAnswers(AllParts(cs), AllParts(ds))
    decreases |cs|
  {
    if |cs| > 0 {
      var n := |cs| - 1;
      assert forall k :: 0 <= k < n ==> cs[..n][k] == cs[k] && ds[..n][k] == ds[k];
      AllPartsIgnoreThoughts(cs[..n], ds[..n]);
      assert SameCandidateAnswers(cs[n], ds[n]);
      SameAnswersAppend(AllParts(cs[..n]), AllParts(ds[..n]), PartsOf(cs[n]), PartsOf(ds[n]));
    }
  }

  /**
   * Thoughts never reach the response: two responses that differ at most in
   * the texts of their thought parts fold to the same success or failure and,
   * on success, to the same response text.
   */
  lemma ThoughtsStayOut(r1: Response, r2: Response)
    requires |r1.candidates| == |r2.candidates| && r1.text == r2.text
    requires forall k :: 0 <= k < |r1.candidates| ==> SameCandidateAnswers(r1.candidates[k], r2.candidates[k])
    ensures Folded(r1).Ok? <==> Folded(r2).Ok?
    ensures Folded(r1).Ok? ==> Folded(r1).value.response == Folded(r2).value.response
  {
    var cs, ds := r1.candidates, r2.candidates;
    assert forall k :: 0 <= k < |cs| ==> (Broken(cs[k]) <==> Broken(ds[k]));
    AllPartsIgnoreThoughts(cs, ds);
    AnswerTextsIgnoreThoughts(AllParts(cs), AllParts(ds));
  }

  /**
   * For example, a candidate holding a thought and an empty text falls back
   * to `response.text`, and its thought is the thinking.
   */
  lemma ThoughtOnlyFallsBack(resp: Response, t: String)
    requires |resp.candidates| == 1
    requires resp.candidates[0] == Candidate(Some(Content(Some([Part(true, Some(t)), Part(false, Some(""))]))))
    ensures Folded(resp) == Ok(Analysis(resp.text, Some(t)))
  {
    var ps := [Part(true, Some(t)), Part(false, Some(""))];
    assert resp.candidates[..0] == [];
    assert AllParts(resp.candidates) == ps;
    PartStep([], Part(true, Some(t)));
    assert [Part(true, Some(t))] == [] + [Part(true, Some(t))];
    PartStep([Part(true, Some(t))], Part(false, Some("")));
    assert ps == [Part(true, Some(t))] + [Part(false, Some(""))];
  }

  // ---------------------------------------------------------------- analyze_video

  /** One call of `analyze_video`: the request sent to the SDK (None when none was), and the result. */
  datatype Call = Call(sent: Option<Request>, result: Result<Analysis>)

  /**
   * `analyze_video`: a path that does not exist fails before any request is
   * made; an exception of the SDK propagates; otherwise the response is folded.
   */
  function AnalyzeVideo(path: String, onDisk: bool, prompt: String, includeThinking: bool, reply: Remote<Response>): (r: Call)
    ensures r.sent.Some? <==> onDisk
    ensures r.sent.Some? ==> r.sent.value == RequestFor(path, prompt, includeThinking)
    ensures !onDisk ==> r.result == Err("Video not found: " + path)
    ensures onDisk && reply.Raised? ==> r.result == Err(reply.message)
    ensures onDisk && reply.Replied? ==> r.result == Folded(reply.reply)
  {
    if !onDisk then Call(None, Err("Video not found: " + path))
    else
      var sent := Some(RequestFor(path, prompt, includeThinking));
      match reply
      case Raised(m) => Call(sent, Err(m))
      case Replied(resp) => Call(sent, Folded(resp))
  }

  const QuestionHead: String := "The viewer asked: \""

  const QuestionTail: String := "\"\n\nPlease analyze this sports video and directly answer their question.\n\nAdditional context: "

  const PromptTail: String := "\n\nProvide your analysis as a sports journalist would, with:\n1. Direct answer to the question\n2. Supporting observations from the video\n3. Expert analysis and insights\n4. A memorable quote or tweet about this moment"

  const NoContext: String := "None provided"

  /**
   * `analyze_video_with_context` calls `analyze_video` (thinking included) on
   * this prompt: the question in quotes, then the context or "None provided".
   */
  function ContextPrompt(question: String, additional: Option<String>): (p: String)
    ensures IsPrefix(QuestionHead + question + QuestionTail, p)
    ensures IsSuffix(PromptTail, p)
  {
    var context := if Truthy(additional) then additional.value else NoContext;
    QuestionHead + question + QuestionTail + context + PromptTail
  }

  /**
   * The prompt gives back both the question and the context it was built
   * from, and an absent context reads the same as an empty one.
   */
  lemma ContextPromptQuotes(question: String, additional: Option<String>)
    ensures var p := ContextPrompt(question, additional);
      var start := |QuestionHead| + |question| + |QuestionTail|;
      && p[|QuestionHead|..|QuestionHead| + |question|] == question
      && p[start..|p| - |PromptTail|] == (if Truthy(additional) then additional.value else NoContext)
    ensures ContextPrompt(question, None) == ContextPrompt(question, Some(""))
  {
    var context := if Truthy(additional) then additional.value else NoContext;
    FiveParts(QuestionHead, question, QuestionTail, context, PromptTail);
  }

  /** The second and fourth of five concatenated parts are found again by their lengths. */
  lemma FiveParts<T>(a: seq<T>, b: seq<T>, c: seq<T>, d: seq<T>, e: seq<T>)
    ensures var p := a + b + c + d + e;
      && p[|a|..|a| + |b|] == b
      && p[|a| + |b| + |c|..|p| - |e|] == d
  {
    var p := a + b + c + d + e;
    assert p == a + (b + (c + d + e));
    assert p == (a + b + c) + (d + e);
  }
}
