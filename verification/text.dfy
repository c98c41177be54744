/**
 * The slice of Python's `str` and `os.path` behaviour the scripts rely on:
 * `strip`, `split()`, `split(c)`, `join`, `in`, `lower` (ASCII), `basename`,
 * and decimal rendering of integers (`str(n)`, `f"{n:03d}"`).
 * Strings are sequences of Unicode scalar values, as Python's `len` counts them.
 */
module Text {

  type String = seq<char>

  // ---------------------------------------------------------------- whitespace

  /** `str.isspace()` on one character: the set `strip()` and `split()` remove. */
  predicate IsSpace(c: char)
  {
    || ('\U{0009}' <= c <= '\U{000D}')
    || ('\U{001C}' <= c <= '\U{001F}')
    || c == ' ' || c == '\U{0085}' || c == '\U{00A0}' || c == '\U{1680}'
    || ('\U{2000}' <= c <= '\U{200A}')
    || c == '\U{2028}' || c == '\U{2029}' || c == '\U{202F}' || c == '\U{205F}' || c == '\U{3000}'
  }

  predicate AllSpace(s: String)
  {
    forall i :: 0 <= i < |s| ==> IsSpace(s[i])
  }

  /** Number of whitespace characters `s` starts with. */
  function LeadingSpace(s: String): (n: nat)
    ensures n <= |s|
    ensures AllSpace(s[..n])
    ensures n == |s| || !IsSpace(s[n])
  {
    if |s| > 0 && IsSpace(s[0]) then
      var n := 1 + LeadingSpace(s[1..]);
      assert s[..n] == [s[0]] + s[1..][..n - 1];
      n
    else 0
  }

  /** `s.rstrip()`. */
  function TrimEnd(s: String): (r: String)
    ensures |r| <= |s| && r == s[..|r|]
    ensures AllSpace(s[|r|..])
    ensures r == [] || !IsSpace(r[|r| - 1])
  {
    if |s| > 0 && IsSpace(s[|s| - 1]) then
      var r := TrimEnd(s[..|s| - 1]);
      assert s[|r|..] == s[..|s| - 1][|r|..] + [s[|s| - 1]];
      r
    else s
  }

  /**
   * `s.strip()`: the unique infix of `s` that starts after its leading
   * whitespace, is followed only by whitespace, and neither starts nor ends
   * with whitespace.
   */
  function Strip(s: String): (r: String)
    ensures LeadingSpace(s) + |r| <= |s|
    ensures r == s[LeadingSpace(s)..LeadingSpace(s) + |r|]
    ensures AllSpace(s[..LeadingSpace(s)]) && AllSpace(s[LeadingSpace(s) + |r|..])
    ensures r == [] || (!IsSpace(r[0]) && !IsSpace(r[|r| - 1]))
    ensures r == [] <==> AllSpace(s)
  {
    var n := LeadingSpace(s);
    var r := TrimEnd(s[n..]);
    StripParts(s, n, r);
    r
  }

  /** Whitespace padding around a text that neither starts nor ends with whitespace is what `strip` removes. */
  lemma StripPadded(g0: String, w: String, g1: String)
    requires AllSpace(g0) && AllSpace(g1)
    requires w == [] || (!IsSpace(w[0]) && !IsSpace(w[|w| - 1]))
    ensures Strip(g0 + w + g1) == w
  {
    if w == [] {
      AllSpaceAppend(g0, g1);
      assert g0 + w + g1 == g0 + g1;
    } else {
      StripAroundWord(g0, w, g1);
    }
  }

  lemma AllSpaceAppend(a: String, b: String)
    requires AllSpace(a) && AllSpace(b)
    ensures AllSpace(a + b)
  {
    assert forall k :: 0 <= k < |a + b| ==> (a + b)[k] == if k < |a| then a[k] else b[k - |a|];
  }

  lemma StripAroundWord(g0: String, w: String, g1: String)
    requires AllSpace(g0) && AllSpace(g1)
    requires w != [] && !IsSpace(w[0]) && !IsSpace(w[|w| - 1])
    ensures Strip(g0 + w + g1) == w
  {
    var s := g0 + w + g1;
    var x := w + g1;
    assert s == g0 + x;
    LeadingSpaceBefore(g0, x);
    var r := Strip(s);
    assert s[|g0|..] == x;
    assert r == x[..|r|] && AllSpace(x[|r|..]);
    TrailingSpaceCut(w, g1, r);
  }

  /** The only prefix of `w + g1` followed by whitespace alone and ending in a non-space is `w`. */
  lemma TrailingSpaceCut(w: String, g1: String, r: String)
    requires w != [] && !IsSpace(w[|w| - 1]) && AllSpace(g1)
    requires |r| <= |w + g1| && r == (w + g1)[..|r|] && AllSpace((w + g1)[|r|..])
    requires r == [] || !IsSpace(r[|r| - 1])
    ensures r == w
  {
    var x := w + g1;
    assert forall k :: |r| <= k < |x| ==> IsSpace(x[k]) by {
      forall k | |r| <= k < |x| ensures IsSpace(x[k]) {
        assert x[k] == x[|r|..][k - |r|];
      }
    }
    assert x[|w| - 1] == w[|w| - 1];
    assert |w| <= |r|;
    assert forall k :: |w| <= k < |x| ==> IsSpace(x[k]) by {
      forall k | |w| <= k < |x| ensures IsSpace(x[k]) {
        assert x[k] == g1[k - |w|];
      }
    }
    assert r[|r| - 1] == x[|r| - 1];
    assert |r| <= |w|;
    assert r == x[..|w|] == w;
  }

  /** The leading whitespace of `g + x` is `g` when `x` starts with something else. */
  lemma {:induction false} LeadingSpaceBefore(g: String, x: String)
    requires AllSpace(g) && x != [] && !IsSpace(x[0])
    ensures LeadingSpace(g + x) == |g|
    decreases |g|
  {
    var s := g + x;
    if |g| == 0 {
      assert s == x;
    } else {
      assert s[0] == g[0];
      assert s[1..] == g[1..] + x;
      assert AllSpace(g[1..]) by {
        assert forall k :: 0 <= k < |g| - 1 ==> g[1..][k] == g[k + 1];
      }
      LeadingSpaceBefore(g[1..], x);
    }
  }

  /** Leading whitespace, then a trimmed rest, then trailing whitespace, put back together. */
  lemma StripParts(s: String, n: nat, r: String)
    requires n <= |s| && AllSpace(s[..n]) && (n == |s| || !IsSpace(s[n]))
    requires |r| <= |s| - n && r == s[n..][..|r|] && AllSpace(s[n..][|r|..])
    requires r == [] || !IsSpace(r[|r| - 1])
    ensures r == s[n..n + |r|] && AllSpace(s[n + |r|..])
    ensures r == [] || !IsSpace(r[0])
    ensures r == [] <==> AllSpace(s)
  {
    assert s[n + |r|..] == s[n..][|r|..];
    if r == [] {
      assert s == s[..n] + s[n..][|r|..];
    } else {
      assert r[0] == s[n];
    }
  }

  // ---------------------------------------------------------------- prefixes, substrings

  predicate IsPrefix(p: String, s: String)
  {
    |p| <= |s| && s[..|p|] == p
  }

  predicate IsSuffix(p: String, s: String)
  {
    |p| <= |s| && s[|s| - |p|..] == p
  }

  ghost predicate OccursAt(s: String, sub: String, i: int)
  {
    0 <= i <= |s| - |sub| && s[i..i + |sub|] == sub
  }

  /** `s.rfind(c)`: the index of the last `c`, or -1 when there is none. */
  function LastIndexOf(s: String, c: char): (r: int)
    ensures -1 <= r < |s|
    ensures r >= 0 ==> s[r] == c
    ensures forall i :: r < i < |s| ==> s[i] != c
  {
    if |s| == 0 then -1
    else if s[|s| - 1] == c then |s| - 1
    else LastIndexOf(s[..|s| - 1], c)
  }

  /** The last `c` of `x + [c] + d` is the one added when `d` has none. */
  lemma {:induction false} LastIndexOfAfter(x: String, c: char, d: String)
    requires c !in d
    ensures LastIndexOf(x + [c] + d, c) == |x|
    decreases |d|
  {
    var s := x + [c] + d;
    if |d| > 0 {
      assert s[..|s| - 1] == x + [c] + d[..|d| - 1];
      assert s[|s| - 1] == d[|d| - 1];
      LastIndexOfAfter(x, c, d[..|d| - 1]);
    }
  }

  /** Python's `sub in s`. */
  function Contains(s: String, sub: String): (r: bool)
    ensures r <==> exists i :: OccursAt(s, sub, i)
    decreases |s|
  {
    if |s| < |sub| then false
    else if s[..|sub|] == sub then
      assert OccursAt(s, sub, 0);
      true
    else
      var r := Contains(s[1..], sub);
      ContainsShift(s, sub);
      r
  }

  lemma ContainsShift(s: String, sub: String)
    requires |sub| <= |s| && s[..|sub|] != sub
    ensures (exists i :: OccursAt(s, sub, i)) <==> (exists j :: OccursAt(s[1..], sub, j))
  {
    if i :| OccursAt(s, sub, i) {
      assert i != 0;
      assert s[1..][i - 1..i - 1 + |sub|] == s[i..i + |sub|];
      assert OccursAt(s[1..], sub, i - 1);
    }
    if j :| OccursAt(s[1..], sub, j) {
      assert s[j + 1..j + 1 + |sub|] == s[1..][j..j + |sub|];
      assert OccursAt(s, sub, j + 1);
    }
  }

  /** `s.lower()` on ASCII letters; every other character is kept. */
  function LowerAscii(s: String): (r: String)
    ensures |r| == |s|
  {
    seq(|s|, i requires 0 <= i < |s| => if 'A' <= s[i] <= 'Z' then (s[i] as int + 32) as char else s[i])
  }

  // ---------------------------------------------------------------- paths

  /** `os.path.basename(p)`: everything after the last '/'. */
  function Basename(p: String): (r: String)
    ensures IsSuffix(r, p)
    ensures '/' !in r
    ensures |r| == |p| || p[|p| - |r| - 1] == '/'
  {
    if |p| == 0 then p
    else if p[|p| - 1] == '/' then []
    else
      var r := Basename(p[..|p| - 1]) + [p[|p| - 1]];
      assert p[|p| - |r|..] == p[..|p| - 1][|p| - |r|..] + [p[|p| - 1]];
      r
  }

  /** `str(Path(dir) / name)` for a directory written without a trailing '/'. */
  function JoinPath(dir: String, name: String): String
  {
    dir + "/" + name
  }

  /** The file name of a joined path is the name that was joined. */
  lemma BasenameOfJoin(dir: String, name: String)
    requires '/' !in name
    ensures Basename(JoinPath(dir, name)) == name
  {
    var p := JoinPath(dir, name);
    var r := Basename(p);
    assert p[|p| - |name| - 1] == '/';
    assert |r| == |name|;
    assert r == p[|p| - |name|..] == name;
  }

  // ---------------------------------------------------------------- join and split

  /** `sep.join(parts)`. */
  function Join(sep: String, parts: seq<String>): String
  {
    if |parts| == 0 then []
    else if |parts| == 1 then parts[0]
    else parts[0] + sep + Join(sep, parts[1..])
  }

  /** Joining one more part appends the separator and that part. */
  lemma {:induction false} JoinSnoc(sep: String, parts: seq<String>, x: String)
    requires |parts| > 0
    ensures Join(sep, parts + [x]) == Join(sep, parts) + sep + x
    decreases |parts|
  {
    var all := parts + [x];
    if |parts| == 1 {
      assert all[1..] == [x];
    } else {
      assert all[1..] == parts[1..] + [x];
      JoinSnoc(sep, parts[1..], x);
    }
  }

  /** `s.split(c)` for a one-character separator: always at least one piece, none holding `c`. */
  function SplitOn(s: String, c: char): (r: seq<String>)
    ensures |r| >= 1
    ensures forall i :: 0 <= i < |r| ==> c !in r[i]
  {
    if |s| == 0 then [[]]
    else
      var rest := SplitOn(s[1..], c);
      if s[0] == c then [[]] + rest
      else [[s[0]] + rest[0]] + rest[1..]
  }

  /** Joining the pieces of a split gives the string back. */
  lemma {:induction false} JoinSplitOn(s: String, c: char)
    ensures Join([c], SplitOn(s, c)) == s
    decreases |s|
  {
    if |s| > 0 {
      var rest := SplitOn(s[1..], c);
      JoinSplitOn(s[1..], c);
      if s[0] == c {
        assert SplitOn(s, c) == [[]] + rest;
      } else {
        var r := SplitOn(s, c);
        assert r == [[s[0]] + rest[0]] + rest[1..];
        if |rest| == 1 {
          assert Join([c], r) == [s[0]] + rest[0];
        } else {
          assert r[1..] == rest[1..];
          assert Join([c], r) == [s[0]] + rest[0] + [c] + Join([c], rest[1..]);
        }
      }
    }
  }

  lemma {:induction false} SplitOnFree(x: String, c: char)
    requires c !in x
    ensures SplitOn(x, c) == [x]
    decreases |x|
  {
    if |x| > 0 {
      SplitOnFree(x[1..], c);
      assert [x[0]] + x[1..] == x;
    }
  }

  lemma {:induction false} SplitOnCons(x: String, c: char, y: String)
    requires c !in x
    ensures SplitOn(x + [c] + y, c) == [x] + SplitOn(y, c)
    decreases |x|
  {
    if |x| == 0 {
      assert x + [c] + y == [c] + y;
      assert ([c] + y)[1..] == y;
    } else {
      var s := x + [c] + y;
      assert s[1..] == x[1..] + [c] + y;
      SplitOnCons(x[1..], c, y);
      assert [x[0]] + x[1..] == x;
    }
  }

  /** Splitting a join gives the parts back when no part contains the separator. */
  lemma {:induction false} SplitOnJoin(parts: seq<String>, c: char)
    requires |parts| >= 1
    requires forall i :: 0 <= i < |parts| ==> c !in parts[i]
    ensures SplitOn(Join([c], parts), c) == parts
    decreases |parts|
  {
    if |parts| == 1 {
      SplitOnFree(parts[0], c);
    } else {
      SplitOnJoin(parts[1..], c);
      SplitOnCons(parts[0], c, Join([c], parts[1..]));
      assert [parts[0]] + parts[1..] == parts;
    }
  }

  /** The characters of `s` that are not whitespace, in order. */
  function NonSpace(s: String): String
  {
    if |s| == 0 then []
    else if IsSpace(s[0]) then NonSpace(s[1..])
    else [s[0]] + NonSpace(s[1..])
  }

  /** `b''.join(parts)`, `''.join(parts)`: the parts one after another. */
  function Concat<T>(parts: seq<seq<T>>): seq<T>
  {
    if |parts| == 0 then [] else parts[0] + Concat(parts[1..])
  }

  lemma {:induction false} ConcatAppend<T>(a: seq<seq<T>>, b: seq<seq<T>>)
    ensures Concat(a + b) == Concat(a) + Concat(b)
    decreases |a|
  {
    if |a| == 0 {
      assert a + b == b;
    } else {
      assert (a + b)[0] == a[0];
      assert (a + b)[1..] == a[1..] + b;
      ConcatAppend(a[1..], b);
      assert Concat(a + b) == a[0] + (Concat(a[1..]) + Concat(b));
    }
  }

  predicate NoSpace(w: String)
  {
    forall i :: 0 <= i < |w| ==> !IsSpace(w[i])
  }

  /**
   * `s.split()`: the maximal runs of non-whitespace. Every word is non-empty and
   * free of whitespace, and together the words hold exactly the non-whitespace
   * characters of `s`, in order.
   */
  function Words(s: String): (r: seq<String>)
    ensures forall i :: 0 <= i < |r| ==> |r[i]| > 0 && NoSpace(r[i])
    ensures |s| > 0 && !IsSpace(s[0]) ==> |r| > 0 && r[0][0] == s[0]
    ensures Concat(r) == NonSpace(s)
  {
    if |s| == 0 then []
    else
      var rest := Words(s[1..]);
      if IsSpace(s[0]) then rest
      else if |s| > 1 && !IsSpace(s[1]) then
        JoinFirstWord(s[0], rest);
        rest[0 := [s[0]] + rest[0]]
      else
        var r := [[s[0]]] + rest;
        assert r[1..] == rest;
        r
  }

  /** `gaps[0] + words[0] + gaps[1] + … + words[n - 1] + gaps[n]`. */
  function Interleave(gaps: seq<String>, words: seq<String>): String
    requires |gaps| == |words| + 1
  {
    if |words| == 0 then gaps[0] else gaps[0] + words[0] + Interleave(gaps[1..], words[1..])
  }

  /**
   * `s` is whitespace runs and words taken in turn: every word is non-empty and
   * space-free, every gap is whitespace, and the gaps between two words are
   * not empty (the outer two may be).
   */
  ghost predicate IsSplit(s: String, gaps: seq<String>, words: seq<String>)
  {
    && |gaps| == |words| + 1
    && (forall i :: 0 <= i < |words| ==> |words[i]| > 0 && NoSpace(words[i]))
    && (forall i :: 0 <= i < |gaps| ==> AllSpace(gaps[i]))
    && (forall i :: 0 < i < |words| ==> |gaps[i]| > 0)
    && Interleave(gaps, words) == s
  }

  /** Leading whitespace does not change the words. */
  lemma {:induction false} WordsAfterSpace(g: String, t: String)
    requires AllSpace(g)
    ensures Words(g + t) == Words(t)
    decreases |g|
  {
    if |g| > 0 {
      var s := g + t;
      assert s[0] == g[0] && IsSpace(g[0]);
      assert s[1..] == g[1..] + t;
      assert AllSpace(g[1..]) by {
        assert forall k :: 0 <= k < |g| - 1 ==> g[1..][k] == g[k + 1];
      }
      WordsAfterSpace(g[1..], t);
    } else {
      assert g + t == t;
    }
  }

  /** A word followed by whitespace or the end of the string is the first word. */
  lemma {:induction false} WordsAfterWord(w: String, t: String)
    requires |w| > 0 && NoSpace(w)
    requires t == [] || IsSpace(t[0])
    ensures Words(w + t) == [w] + Words(t)
    decreases |w|
  {
    var s := w + t;
    assert s[0] == w[0] && !IsSpace(w[0]);
    assert s[1..] == w[1..] + t;
    if |w| > 1 {
      assert s[1] == w[1] && !IsSpace(w[1]);
      assert NoSpace(w[1..]) by {
        assert forall k :: 0 <= k < |w| - 1 ==> w[1..][k] == w[k + 1];
      }
      WordsAfterWord(w[1..], t);
      var rest := Words(s[1..]);
      assert rest == [w[1..]] + Words(t);
      assert Words(s) == rest[0 := [s[0]] + rest[0]];
      assert [w[0]] + w[1..] == w;
    } else {
      assert s[1..] == t && w == [s[0]];
    }
  }

  /** Whitespace, a word, then whitespace or the end: that word comes first. */
  lemma WordsAfterGapAndWord(g: String, w: String, t: String)
    requires AllSpace(g) && |w| > 0 && NoSpace(w)
    requires t == [] || IsSpace(t[0])
    ensures Words(g + w + t) == [w] + Words(t)
  {
    assert g + w + t == g + (w + t);
    WordsAfterSpace(g, w + t);
    WordsAfterWord(w, t);
  }

  /** Any decomposition into whitespace gaps and words is the one `split()` finds. */
  lemma {:induction false} WordsOfSplit(s: String, gaps: seq<String>, words: seq<String>)
    requires IsSplit(s, gaps, words)
    ensures Words(s) == words
    decreases |words|
  {
    if |words| == 0 {
      WordsAfterSpace(gaps[0], []);
      assert gaps[0] + [] == gaps[0];
    } else {
      var t := Interleave(gaps[1..], words[1..]);
      assert s == gaps[0] + (words[0] + t);
      WordsAfterSpace(gaps[0], words[0] + t);
      SplitTail(s, gaps, words);
      WordsAfterWord(words[0], t);
      WordsOfSplit(t, gaps[1..], words[1..]);
    }
  }

  /** `split()` is determined by the decompositions of `s`: every one of them has its words. */
  lemma WordsDetermined(s: String)
    ensures forall gaps, words :: IsSplit(s, gaps, words) ==> Words(s) == words
  {
    forall gaps, words | IsSplit(s, gaps, words) ensures Words(s) == words {
      WordsOfSplit(s, gaps, words);
    }
  }

  /** What follows the first word of a decomposition is whitespace first, and decomposes into the rest. */
  lemma SplitTail(s: String, gaps: seq<String>, words: seq<String>)
    requires IsSplit(s, gaps, words) && |words| > 0
    ensures var t := Interleave(gaps[1..], words[1..]);
      && (t == [] || IsSpace(t[0]))
      && IsSplit(t, gaps[1..], words[1..])
  {
    var t := Interleave(gaps[1..], words[1..]);
    if |words| > 1 {
      assert t == gaps[1] + (words[1] + Interleave(gaps[2..], words[2..]));
      assert t[0] == gaps[1][0];
    } else {
      assert t == gaps[1];
    }
    assert forall i :: 0 <= i < |words| - 1 ==> words[1..][i] == words[i + 1];
    assert forall i :: 0 <= i < |gaps| - 1 ==> gaps[1..][i] == gaps[i + 1];
  }

  /** The words of any string come with the whitespace gaps around them. */
  lemma {:induction false} SplitExists(s: String)
    ensures exists gaps :: IsSplit(s, gaps, Words(s))
    decreases |s|
  {
    if |s| == 0 {
      var none: seq<String> := [];
      var gaps: seq<String> := [[]];
      assert Interleave(gaps, none) == s;
      assert IsSplit(s, gaps, Words(s));
    } else {
      var t := s[1..];
      SplitExists(t);
      var ws := Words(t);
      var gs :| IsSplit(t, gs, ws);
      var c := s[0];
      assert s == [c] + t;
      if IsSpace(c) {
        var gaps := gs[0 := [c] + gs[0]];
        SplitGrowGap(c, t, gs, ws);
        assert IsSplit(s, gaps, Words(s));
      } else if |t| > 0 && !IsSpace(t[0]) {
        SplitGrowWord(c, t, gs, ws);
        assert IsSplit(s, gs, Words(s));
      } else {
        SplitNewWord(c, t, gs, ws);
        assert IsSplit(s, [[]] + gs, Words(s));
      }
    }
  }

  /** A whitespace character in front goes into the first gap. */
  lemma SplitGrowGap(c: char, t: String, gs: seq<String>, ws: seq<String>)
    requires IsSpace(c) && IsSplit(t, gs, ws)
    ensures IsSplit([c] + t, gs[0 := [c] + gs[0]], ws)
  {
    var g := [c] + gs[0];
    var gaps := gs[0 := g];
    assert AllSpace(g) by {
      assert forall k :: 0 < k < |g| ==> g[k] == gs[0][k - 1];
    }
    assert gaps[1..] == gs[1..];
    if |ws| > 0 {
      assert t == gs[0] + ws[0] + Interleave(gs[1..], ws[1..]);
      assert Interleave(gaps, ws) == g + ws[0] + Interleave(gs[1..], ws[1..]);
    }
    assert forall i :: 0 < i < |gaps| ==> gaps[i] == gs[i];
  }

  /** A word character in front of a word (with no gap before it) joins that word. */
  lemma SplitGrowWord(c: char, t: String, gs: seq<String>, ws: seq<String>)
    requires !IsSpace(c) && IsSplit(t, gs, ws)
    requires |t| > 0 && !IsSpace(t[0])
    ensures IsSplit([c] + t, gs, ws[0 := [c] + ws[0]])
  {
    if |ws| == 0 {
      assert false;
    }
    if gs[0] != [] {
      assert false;
    }
    JoinFirstWord(c, ws);
    var words := ws[0 := [c] + ws[0]];
    assert words[1..] == ws[1..];
    assert t == gs[0] + ws[0] + Interleave(gs[1..], ws[1..]);
    assert forall i :: 0 < i < |words| ==> words[i] == ws[i];
  }

  /** A word character in front of whitespace or nothing is a word of its own. */
  lemma SplitNewWord(c: char, t: String, gs: seq<String>, ws: seq<String>)
    requires !IsSpace(c) && IsSplit(t, gs, ws)
    requires t == [] || IsSpace(t[0])
    ensures IsSplit([c] + t, [[]] + gs, [[c]] + ws)
  {
    var gaps := [[]] + gs;
    var words := [[c]] + ws;
    assert gaps[1..] == gs && words[1..] == ws;
    if |ws| > 0 && gs[0] == [] {
      assert false;
    }
    assert forall i :: 0 < i < |gaps| ==> gaps[i] == gs[i - 1];
    assert forall i :: 0 < i < |words| ==> words[i] == ws[i - 1];
    assert Interleave(gaps, words) == [] + [c] + t;
  }

  /** Gluing a non-space character onto the first word keeps it a word and keeps the letters in order. */
  lemma JoinFirstWord(c: char, ws: seq<String>)
    requires !IsSpace(c) && |ws| > 0
    requires forall i :: 0 <= i < |ws| ==> |ws[i]| > 0 && NoSpace(ws[i])
    ensures NoSpace([c] + ws[0])
    ensures Concat(ws[0 := [c] + ws[0]]) == [c] + Concat(ws)
  {
    var w := [c] + ws[0];
    var r := ws[0 := w];
    assert NoSpace(w) by {
      assert forall k :: 0 < k < |w| ==> w[k] == ws[0][k - 1];
    }
    assert r[1..] == ws[1..];
  }

  // ---------------------------------------------------------------- decimal digits

  predicate IsDigit(c: char)
  {
    '0' <= c <= '9'
  }

  predicate AllDigits(s: String)
  {
    forall i :: 0 <= i < |s| ==> IsDigit(s[i])
  }

  function DigitChar(d: nat): (c: char)
    requires d < 10
    ensures IsDigit(c)
  {
    ('0' as int + d) as char
  }

  /** The number a string of decimal digits denotes (leading zeros allowed). */
  function DecimalValue(s: String): nat
    requires AllDigits(s)
  {
    if |s| == 0 then 0
    else DecimalValue(s[..|s| - 1]) * 10 + (s[|s| - 1] as int - '0' as int)
  }

  /** `str(n)` for a natural number: canonical digits that read back as `n`. */
  function NatToString(n: nat): (r: String)
    ensures |r| >= 1 && AllDigits(r)
    ensures DecimalValue(r) == n
    ensures |r| > 1 ==> r[0] != '0'
  {
    if n < 10 then [DigitChar(n)]
    else
      var r := NatToString(n / 10) + [DigitChar(n % 10)];
      assert r[..|r| - 1] == NatToString(n / 10);
      r
  }

  /** `str(i)` for any integer. */
  function IntToString(i: int): (r: String)
    ensures i >= 0 ==> AllDigits(r) && DecimalValue(r) == i
    ensures i < 0 ==> |r| >= 2 && r[0] == '-' && AllDigits(r[1..]) && DecimalValue(r[1..]) == -i
  {
    if i < 0 then
      var r := "-" + NatToString(-i);
      assert r[1..] == NatToString(-i);
      r
    else NatToString(i)
  }

  function Zeros(n: nat): (r: String)
    ensures |r| == n && AllDigits(r)
    ensures forall i :: 0 <= i < n ==> r[i] == '0'
  {
    if n == 0 then [] else Zeros(n - 1) + "0"
  }

  lemma {:induction false} LeadingZerosValue(z: nat, s: String)
    requires AllDigits(s)
    ensures AllDigits(Zeros(z) + s)
    ensures DecimalValue(Zeros(z) + s) == DecimalValue(s)
    decreases |s|
  {
    var t := Zeros(z) + s;
    if |s| == 0 {
      assert t == Zeros(z);
      ZerosValue(z);
    } else {
      LeadingZerosValue(z, s[..|s| - 1]);
      assert t[..|t| - 1] == Zeros(z) + s[..|s| - 1];
    }
  }

  lemma {:induction false} ZerosValue(z: nat)
    ensures DecimalValue(Zeros(z)) == 0
    decreases z
  {
    if z > 0 {
      var t := Zeros(z);
      var p := Zeros(z - 1);
      assert t == p + "0";
      assert t[..z - 1] == p;
      ZerosValue(z - 1);
      assert DecimalValue(t) == DecimalValue(p) * 10 + 0;
    }
  }

  /**
   * `f"{n:0{width}d}"` for a natural number: at least `width` digits, left-padded
   * with zeros, reading back as `n`.
   */
  function ZeroPad(n: nat, width: nat): (r: String)
    ensures AllDigits(r)
    ensures |r| == if |NatToString(n)| < width then width else |NatToString(n)|
    ensures DecimalValue(r) == n
    ensures IsSuffix(NatToString(n), r)
  {
    var d := NatToString(n);
    var z := if |d| < width then width - |d| else 0;
    LeadingZerosValue(z, d);
    Zeros(z) + d
  }
}
