/**
 * `twitter_service.py`: the checks and string handling around posting to X.
 * The tweepy client is an input: each call to `create_tweet` is described by
 * the tweet id it replied with or the message of the exception it raised, and
 * each regular expression of `extract_tweet_from_article` by the text its
 * first match captured (or None).
 */
module TwitterService {
  import opened Text
  import opened Wrappers

  /** `MAX_TWEET_LENGTH`. */
  const MaxTweetLength: nat := 280

  const Ellipsis: String := "..."

  // ---------------------------------------------------------------- credentials

  datatype Credentials = Credentials(
    apiKey: Option<String>,
    apiSecret: Option<String>,
    accessToken: Option<String>,
    accessTokenSecret: Option<String>)

  /** The environment variables, in the order `_validate_credentials` tests them. */
  const CredentialNames: seq<String> := ["X_API_KEY", "X_API_SECRET", "X_ACCESS_TOKEN", "X_ACCESS_TOKEN_SECRET"]

  /** The four credentials in the order of `CredentialNames`. */
  function Fields(c: Credentials): (r: seq<Option<String>>)
    ensures |r| == |CredentialNames|
  {
    [c.apiKey, c.apiSecret, c.accessToken, c.accessTokenSecret]
  }

  /** `arg or os.getenv(name)`: an empty argument also falls through to the environment. */
  function OrEnv(arg: Option<String>, env: Option<String>): (r: Option<String>)
    ensures Truthy(arg) ==> r == arg
    ensures !Truthy(arg) ==> r == env
  {
    if Truthy(arg) then arg else env
  }

  /** The constructor's `x = x or os.getenv("X_...")` for each of the four. */
  function Resolve(args: Credentials, env: Credentials): (c: Credentials)
    ensures forall k :: 0 <= k < |CredentialNames| ==> Fields(c)[k] == OrEnv(Fields(args)[k], Fields(env)[k])
  {
    Credentials(
      OrEnv(args.apiKey, env.apiKey),
      OrEnv(args.apiSecret, env.apiSecret),
      OrEnv(args.accessToken, env.accessToken),
      OrEnv(args.accessTokenSecret, env.accessTokenSecret))
  }

  /** The index of a credential name in `CredentialNames`, 4 for any other string. */
  function Position(name: String): (k: nat)
    ensures k < |CredentialNames| <==> name in CredentialNames
    ensures k < |CredentialNames| ==> CredentialNames[k] == name
  {
    IndexOf(CredentialNames, name)
  }

  /** The index of the first occurrence of `name` in `names`, or `|names|`. */
  function IndexOf(names: seq<String>, name: String): (k: nat)
    ensures k <= |names|
    ensures k < |names| ==> names[k] == name && name !in names[..k]
    ensures k == |names| ==> name !in names
  {
    if |names| == 0 then 0
    else if names[0] == name then 0
    else
      assert names == [names[0]] + names[1..];
      1 + IndexOf(names[1..], name)
  }

  /**
   * `missing` in `_validate_credentials`: the names of exactly the falsy
   * credentials, each once, in the fixed order of `CredentialNames`.
   */
  function MissingCredentials(c: Credentials): (missing: seq<String>)
    ensures forall k :: 0 <= k < |CredentialNames| ==> (CredentialNames[k] in missing <==> !Truthy(Fields(c)[k]))
    ensures forall n :: n in missing ==> n in CredentialNames
    ensures InNameOrder(missing)
  {
    MissingFrom(Fields(c), 0)
  }

  /** The names of the falsy values among `vals[k..]`, in order. */
  function MissingFrom(vals: seq<Option<String>>, k: nat): (r: seq<String>)
    requires |vals| == |CredentialNames| && k <= |vals|
    decreases |vals| - k
    ensures forall j :: k <= j < |CredentialNames| ==> (CredentialNames[j] in r <==> !Truthy(vals[j]))
    ensures forall i :: 0 <= i < |r| ==> k <= Position(r[i]) < |CredentialNames|
    ensures InNameOrder(r)
  {
    if k == |vals| then []
    else
      var here := MissingOne(vals[k], k);
      var rest := MissingFrom(vals, k + 1);
      MissingStepNames(vals, k, rest);
      MissingStepPositions(vals, k, rest);
      InNameOrderAppend(here, rest);
      here + rest
  }

  /** Prepending credential `k`'s piece decides membership of the names from `k` on. */
  lemma MissingStepNames(vals: seq<Option<String>>, k: nat, rest: seq<String>)
    requires |vals| == |CredentialNames| && k < |vals|
    requires forall j :: k + 1 <= j < |CredentialNames| ==> (CredentialNames[j] in rest <==> !Truthy(vals[j]))
    requires forall i :: 0 <= i < |rest| ==> k + 1 <= Position(rest[i]) < |CredentialNames|
    ensures forall j :: k <= j < |CredentialNames| ==> (CredentialNames[j] in MissingOne(vals[k], k) + rest <==> !Truthy(vals[j]))
  {
    NamesPositioned();
    var here := MissingOne(vals[k], k);
    forall j | k <= j < |CredentialNames| ensures CredentialNames[j] in here + rest <==> !Truthy(vals[j]) {
      assert CredentialNames[j] in here + rest <==> CredentialNames[j] in here || CredentialNames[j] in rest;
      assert forall i :: 0 <= i < |rest| ==> Position(rest[i]) != Position(CredentialNames[k]);
    }
  }

  /** Prepending credential `k`'s piece keeps every position at `k` or above. */
  lemma MissingStepPositions(vals: seq<Option<String>>, k: nat, rest: seq<String>)
    requires |vals| == |CredentialNames| && k < |vals|
    requires forall i :: 0 <= i < |rest| ==> k + 1 <= Position(rest[i]) < |CredentialNames|
    ensures forall i :: 0 <= i < |MissingOne(vals[k], k) + rest| ==> k <= Position((MissingOne(vals[k], k) + rest)[i]) < |CredentialNames|
  {
    var s := MissingOne(vals[k], k) + rest;
    forall i | 0 <= i < |s| ensures k <= Position(s[i]) < |CredentialNames| {
      if i >= |MissingOne(vals[k], k)| {
        assert s[i] == rest[i - |MissingOne(vals[k], k)|];
      }
    }
  }

  /** Each credential name sits at its own position. */
  lemma NamesPositioned()
    ensures forall k :: 0 <= k < |CredentialNames| ==> Position(CredentialNames[k]) == k
  {
    forall k | 0 <= k < |CredentialNames| ensures Position(CredentialNames[k]) == k {
      var i := Position(CredentialNames[k]);
      // the four names have different lengths
      assert |CredentialNames[i]| == |CredentialNames[k]|;
    }
  }

  /** The names are listed in the order of `CredentialNames`, none twice. */
  predicate InNameOrder(names: seq<String>)
  {
    forall i, j :: 0 <= i < j < |names| ==> Position(names[i]) < Position(names[j])
  }

  /** The name of credential `k` when its value is falsy, else nothing. */
  function MissingOne(value: Option<String>, k: nat): (r: seq<String>)
    requires k < |CredentialNames|
    ensures r == [] <==> Truthy(value)
    ensures r != [] ==> r == [CredentialNames[k]] && Position(r[0]) == k
  {
    if Truthy(value) then [] else [CredentialNames[k]]
  }

  lemma InNameOrderAppend(a: seq<String>, b: seq<String>)
    requires |a| <= 1 && (forall i :: 0 <= i < |a| ==> Position(a[i]) < |CredentialNames|)
    requires InNameOrder(b) && forall i, j :: 0 <= i < |a| && 0 <= j < |b| ==> Position(a[i]) < Position(b[j])
    ensures InNameOrder(a + b)
  {
    var s := a + b;
    forall i, j | 0 <= i < j < |s| ensures Position(s[i]) < Position(s[j]) {
      assert s[j] == b[j - |a|];
      if i >= |a| {
        assert s[i] == b[i - |a|];
      }
    }
  }

  /** `_validate_credentials`: the ValueError message, or Ok. */
  function ValidateCredentials(c: Credentials): (r: Result<()>)
    ensures r.Ok? <==> forall k :: 0 <= k < |CredentialNames| ==> Truthy(Fields(c)[k])
    ensures r.Err? ==> r.error == "Missing X API credentials: " + Join(", ", MissingCredentials(c))
  {
    var missing := MissingCredentials(c);
    NoneMissing(c);
    if |missing| > 0 then
      Err("Missing X API credentials: " + Join(", ", missing))
    else
      Ok(())
  }

  /** Nothing is missing exactly when every credential is truthy. */
  lemma NoneMissing(c: Credentials)
    ensures |MissingCredentials(c)| == 0 <==> forall k :: 0 <= k < |CredentialNames| ==> Truthy(Fields(c)[k])
  {
    var missing := MissingCredentials(c);
    if |missing| > 0 {
      assert CredentialNames[Position(missing[0])] in missing;
    } else {
      assert forall k :: 0 <= k < |CredentialNames| ==> CredentialNames[k] !in missing;
    }
  }

  /** `is_configured`: whether `_validate_credentials` raises nothing. */
  function IsConfigured(c: Credentials): (r: bool)
    ensures r <==> Truthy(c.apiKey) && Truthy(c.apiSecret) && Truthy(c.accessToken) && Truthy(c.accessTokenSecret)
  {
    assert Fields(c) == [c.apiKey, c.apiSecret, c.accessToken, c.accessTokenSecret];
    assert (forall k :: 0 <= k < |CredentialNames| ==> Truthy(Fields(c)[k])) <==> Truthy(Fields(c)[0]) && Truthy(Fields(c)[1]) && Truthy(Fields(c)[2]) && Truthy(Fields(c)[3]);
    ValidateCredentials(c).Ok?
  }

  /** The constructor: resolve each credential, then validate. */
  function NewService(args: Credentials, env: Credentials): (r: Result<Credentials>)
    ensures r.Ok? ==> r.value == Resolve(args, env)
    ensures r.Err? <==> ValidateCredentials(Resolve(args, env)).Err?
  {
    var c := Resolve(args, env);
    match ValidateCredentials(c)
    case Err(e) => Err(e)
    case Ok(_) => Ok(c)
  }

  /**
   * A service that was constructed is configured: `is_configured` can only
   * answer False for credentials changed after construction.
   */
  lemma ConstructedIsConfigured(args: Credentials, env: Credentials)
    requires NewService(args, env).Ok?
    ensures IsConfigured(NewService(args, env).value)
  {
  }

  /** An explicit argument wins over the environment; the environment fills in the rest. */
  lemma ArgumentsOverrideEnvironment(args: Credentials, env: Credentials)
    requires Truthy(args.apiKey) && Truthy(args.apiSecret)
    requires Truthy(env.accessToken) && Truthy(env.accessTokenSecret)
    ensures IsConfigured(Resolve(args, env))
    ensures Resolve(args, env).apiKey == args.apiKey
  {
  }

  // ---------------------------------------------------------------- truncation

  /** The text kept before the ellipsis may be at most this long. */
  function CutLimit(addEllipsis: bool): nat
  {
    if addEllipsis then MaxTweetLength - |Ellipsis| else MaxTweetLength
  }

  function Tail(addEllipsis: bool): String
  {
    if addEllipsis then Ellipsis else ""
  }

  /** `s.rsplit(' ', 1)[0]`: everything before the last space, or `s` when it has none. */
  function BeforeLastSpace(s: String): (r: String)
    ensures IsPrefix(r, s)
    ensures |r| == |s| <==> ' ' !in s
    ensures |r| < |s| ==> s[|r|] == ' ' && ' ' !in s[|r| + 1..]
  {
    var k := LastIndexOf(s, ' ');
    if k < 0 then
      assert forall i :: 0 <= i < |s| ==> s[i] != ' ';
      s
    else s[..k]
  }

  /**
   * `truncate_tweet`: a text of at most 280 characters is returned as it is.
   * A longer one is cut to its first 277 characters (280 without the
   * ellipsis), then back to the last space inside them when there is one
   * (the space itself dropped), and "..." is appended.
   */
  function TruncateTweet(text: String, addEllipsis: bool): (r: String)
    ensures |r| <= MaxTweetLength
    ensures |text| <= MaxTweetLength ==> r == text
    ensures |text| > MaxTweetLength ==>
      var m := CutLimit(addEllipsis);
      var k := |r| - |Tail(addEllipsis)|;
      && 0 <= k <= m
      && r == text[..k] + Tail(addEllipsis)
      && (if ' ' in text[..m] then k < m && text[k] == ' ' && ' ' !in text[k + 1..m] else k == m)
  {
    if |text| <= MaxTweetLength then text
    else
      var m := CutLimit(addEllipsis);
      var kept := BeforeLastSpace(text[..m]);
      assert text[..|kept|] == kept;
      assert ' ' in text[..m] ==> |kept| < m && text[..m][|kept| + 1..] == text[|kept| + 1..m];
      kept + Tail(addEllipsis)
  }

  /**
   * A truncated tweet never ends inside a word that continues: the cut is at
   * a space or at the hard limit, and nothing after the cut is kept.
   */
  lemma TruncationKeepsWholeWords(text: String)
    requires |text| > MaxTweetLength && ' ' in text[..CutLimit(true)]
    ensures var r := TruncateTweet(text, true);
      IsSuffix(Ellipsis, r) && text[|r| - |Ellipsis|] == ' ' && IsPrefix(r[..|r| - |Ellipsis|], text)
  {
    var r := TruncateTweet(text, true);
    assert r[..|r| - |Ellipsis|] == text[..|r| - |Ellipsis|];
  }

  // ---------------------------------------------------------------- post_tweet

  const EmptyTweet: String := "Tweet text cannot be empty"

  function TooLong(length: nat): String
  {
    "Tweet exceeds 280 characters (" + NatToString(length) + " chars)"
  }

  /**
   * The validation at the start of `post_tweet`: the text actually sent, or
   * the error returned without contacting the client.
   */
  function TextToPost(text: String, autoTruncate: bool): (r: Result<String>)
    ensures r.Err? <==> AllSpace(text) || (|Strip(text)| > MaxTweetLength && !autoTruncate)
    ensures AllSpace(text) ==> r == Err(EmptyTweet)
    ensures !AllSpace(text) && |Strip(text)| > MaxTweetLength && !autoTruncate ==> r == Err(TooLong(|Strip(text)|))
    ensures r.Ok? ==> 0 < |r.value| <= MaxTweetLength
    ensures r.Ok? && |Strip(text)| <= MaxTweetLength ==> r.value == Strip(text)
    ensures r.Ok? && |Strip(text)| > MaxTweetLength ==>
      IsSuffix(Ellipsis, r.value) && IsPrefix(r.value[..|r.value| - |Ellipsis|], Strip(text))
    ensures r.Ok? && |Strip(text)| > MaxTweetLength ==> r.value == TruncateTweet(Strip(text), true)
  {
    var s := Strip(text);
    if s == [] then Err(EmptyTweet)
    else if |s| > MaxTweetLength then
      if autoTruncate then
        var t := TruncateTweet(s, true);
        assert t[..|t| - |Ellipsis|] == s[..|t| - |Ellipsis|];
        Ok(t)
      else Err(TooLong(|s|))
    else Ok(s)
  }

  const Forbidden: String := "Access forbidden. Check your API permissions (need Read and Write)."
  const Unauthorized: String := "Authentication failed. Check your API credentials."
  const RateLimited: String := "Rate limit exceeded. Please wait before posting again."
  const DuplicateTweet: String := "Duplicate tweet. Twitter doesn't allow posting the same content twice."

  /**
   * The `except` branch of `post_tweet`: a message that mentions 403, 401 or
   * 429 (tested in that order), or "duplicate" in any case, is replaced by a
   * fixed explanation; any other message is reported as it is.
   */
  function ErrorMessage(raw: String): (m: String)
    ensures m in {Forbidden, Unauthorized, RateLimited, DuplicateTweet, raw}
    ensures Contains(raw, "403") ==> m == Forbidden
    ensures !Contains(raw, "403") && Contains(raw, "401") ==> m == Unauthorized
    ensures !Contains(raw, "403") && !Contains(raw, "401") && Contains(raw, "429") ==> m == RateLimited
    ensures !Contains(raw, "403") && !Contains(raw, "401") && !Contains(raw, "429")
      ==> m == (if Contains(LowerAscii(raw), "duplicate") then DuplicateTweet else raw)
  {
    if Contains(raw, "403") then Forbidden
    else if Contains(raw, "401") then Unauthorized
    else if Contains(raw, "429") then RateLimited
    else if Contains(LowerAscii(raw), "duplicate") then DuplicateTweet
    else raw
  }

  /** What `post_tweet` returns. */
  datatype PostResult =
    | Posted(tweetId: String, tweetUrl: String, text: String, characterCount: nat)
    | NotPosted(error: String)

  const StatusUrl: String := "https://x.com/i/web/status/"

  /**
   * `post_tweet`: `reply` is what `client.create_tweet` did with the text it
   * was given (the id of the new tweet, or the message it raised); it is
   * consulted only when the text passed validation.
   */
  function PostTweet(text: String, autoTruncate: bool, reply: Remote<String>): (r: PostResult)
    ensures TextToPost(text, autoTruncate).Err? ==> r == NotPosted(TextToPost(text, autoTruncate).error)
    ensures r.Posted? <==> TextToPost(text, autoTruncate).Ok? && reply.Replied?
    ensures r.Posted? ==> && r.text == TextToPost(text, autoTruncate).value
                          && r.characterCount == |r.text| <= MaxTweetLength
                          && r.tweetId == reply.reply
                          && r.tweetUrl == StatusUrl + reply.reply
    ensures TextToPost(text, autoTruncate).Ok? && reply.Raised? ==> r == NotPosted(ErrorMessage(reply.message))
  {
    match TextToPost(text, autoTruncate)
    case Err(e) => NotPosted(e)
    case Ok(t) =>
      match reply
      case Replied(id) => Posted(id, StatusUrl + id, t, |t|)
      case Raised(message) => NotPosted(ErrorMessage(message))
  }

  // ---------------------------------------------------------------- extraction from an article

  /** `re.sub(r'<c>+', '', s)`: every `c` removed, everything else kept in order. */
  function Without(s: String, c: char): (r: String)
    ensures c !in r
    ensures |r| <= |s|
    ensures forall x :: x != c ==> multiset(r)[x] == multiset(s)[x]
    ensures c !in s ==> r == s
  {
    if |s| == 0 then []
    else
      assert s == [s[0]] + s[1..];
      (if s[0] == c then [] else [s[0]]) + Without(s[1..], c)
  }

  /**
   * Removal works piece by piece: what is left of two pieces is what is left
   * of each, in their order. With the one-character cases this fixes the
   * order of the kept characters.
   */
  lemma {:induction false} WithoutAppend(a: String, b: String, c: char)
    ensures Without(a + b, c) == Without(a, c) + Without(b, c)
    decreases |a|
  {
    if |a| == 0 {
      assert a + b == b;
    } else {
      assert (a + b)[0] == a[0];
      assert (a + b)[1..] == a[1..] + b;
      WithoutAppend(a[1..], b, c);
    }
  }

  /** A single character is dropped when it is `c`, kept otherwise. */
  lemma WithoutChar(x: char, c: char)
    ensures Without([x], c) == if x == c then [] else [x]
  {
    assert [x][1..] == [];
  }

  /** Markdown emphasis markers removed: '*' first, then '_'. */
  function Unmarked(s: String): (r: String)
    ensures '*' !in r && '_' !in r
    ensures forall x :: x != '*' && x != '_' ==> multiset(r)[x] == multiset(s)[x]
    ensures '*' !in s && '_' !in s ==> r == s
  {
    var noStars := Without(s, '*');
    var r := Without(noStars, '_');
    assert multiset(r)['*'] == multiset(noStars)['*'] == 0;
    r
  }

  /** Unmarking two pieces one after the other keeps both, in order. */
  lemma UnmarkedAppend(a: String, b: String)
    ensures Unmarked(a + b) == Unmarked(a) + Unmarked(b)
  {
    WithoutAppend(a, b, '*');
    WithoutAppend(Without(a, '*'), Without(b, '*'), '_');
  }

  /** The post-processing of one captured group: strip, then drop markdown '*' and '_'. */
  function CleanTweet(group: String): (t: String)
    ensures '*' !in t && '_' !in t
    ensures |t| <= |Strip(group)|
    ensures forall x :: x != '*' && x != '_' ==> multiset(t)[x] == multiset(Strip(group))[x]
    ensures '*' !in Strip(group) && '_' !in Strip(group) ==> t == Strip(group)
    ensures forall a, b :: Strip(group) == a + b ==> t == Unmarked(a) + Unmarked(b)
  {
    var t := Unmarked(Strip(group));
    forall a, b | Strip(group) == a + b ensures t == Unmarked(a) + Unmarked(b) {
      UnmarkedAppend(a, b);
    }
    t
  }

  /** A pattern's capture is taken when it exists and fits in a tweet once cleaned. */
  predicate Accepted(capture: Option<String>)
  {
    capture.Some? && |CleanTweet(capture.value)| <= MaxTweetLength
  }

  /** Pattern `i` is the first whose capture is taken. */
  predicate IsFirstAccepted(captures: seq<Option<String>>, i: int)
  {
    0 <= i < |captures| && Accepted(captures[i]) && forall j :: 0 <= j < i ==> !Accepted(captures[j])
  }

  /**
   * `extract_tweet_from_article`: `captures[i]` is group 1 of the first match
   * of the i-th pattern, in the listed order. The patterns are tried in turn;
   * the first whose cleaned capture has at most 280 characters wins.
   */
  function ExtractTweet(captures: seq<Option<String>>): (r: Option<String>)
    ensures r.None? <==> forall i :: 0 <= i < |captures| ==> !Accepted(captures[i])
    ensures r.Some? ==> '*' !in r.value && '_' !in r.value && |r.value| <= MaxTweetLength
    ensures r.Some? ==> exists i :: IsFirstAccepted(captures, i) && r.value == CleanTweet(captures[i].value)
  {
    match FirstWhere(captures, Accepted)
    case None => None
    case Some(i) =>
      assert IsFirstAccepted(captures, i);
      Some(CleanTweet(captures[i].value))
  }

  /** The index of the first element satisfying `p`, if any. */
  function FirstWhere<T>(xs: seq<T>, p: T -> bool): (r: Option<nat>)
    ensures r.None? <==> forall i :: 0 <= i < |xs| ==> !p(xs[i])
    ensures r.Some? ==> r.value < |xs| && p(xs[r.value]) && forall j :: 0 <= j < r.value ==> !p(xs[j])
  {
    if |xs| == 0 then None
    else if p(xs[0]) then Some(0)
    else
      match FirstWhere(xs[1..], p)
      case None =>
        assert forall i :: 1 <= i < |xs| ==> xs[i] == xs[1..][i - 1];
        None
      case Some(i) =>
        assert forall j :: 1 <= j <= i ==> xs[j] == xs[1..][j - 1];
        Some(i + 1)
  }

  /** The winning pattern is unique: the extraction is the first taken capture. */
  lemma ExtractTweetFirst(captures: seq<Option<String>>, i: int)
    requires IsFirstAccepted(captures, i)
    ensures ExtractTweet(captures) == Some(CleanTweet(captures[i].value))
  {
    var r := ExtractTweet(captures);
    var k :| IsFirstAccepted(captures, k) && r.value == CleanTweet(captures[k].value);
    assert !(k < i) && !(i < k);
  }

  const NoTweetFound: String := "Could not extract tweet from article. No tweet section found."

  /**
   * `post_tweet_from_article`: the extracted tweet, else the truncated
   * fallback text, else an error without contacting the client; an
   * extracted empty string counts as none.
   */
  function PostTweetFromArticle(captures: seq<Option<String>>, fallback: Option<String>, reply: Remote<String>): (r: PostResult)
    ensures !Truthy(ExtractTweet(captures)) && !Truthy(fallback) ==> r == NotPosted(NoTweetFound)
    ensures Truthy(ExtractTweet(captures)) ==> r == PostTweet(ExtractTweet(captures).value, true, reply)
    ensures !Truthy(ExtractTweet(captures)) && Truthy(fallback) ==> r == PostTweet(TruncateTweet(fallback.value, true), true, reply)
  {
    var extracted := ExtractTweet(captures);
    var tweet := if !Truthy(extracted) && Truthy(fallback) then Some(TruncateTweet(fallback.value, true)) else extracted;
    if !Truthy(tweet) then NotPosted(NoTweetFound)
    else PostTweet(tweet.value, true, reply)
  }
}
