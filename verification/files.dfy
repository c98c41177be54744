/**
 * A directory as the scripts see it through `Path.glob`, `os.path.getmtime` and
 * `stat().st_size`: a listing of entries in glob order, each with a size and a
 * modification time. Sorting by mtime is Python's `sorted(..., key=getmtime)`,
 * a stable sort, in either direction.
 */
module Files {
  import opened Text
  import opened Wrappers

  datatype FileInfo = FileInfo(name: String, size: nat, mtime: int)

  /** Matched by the pattern `*.mp4`. */
  predicate IsMp4(f: FileInfo)
  {
    IsSuffix(".mp4", f.name)
  }

  /** `dir.glob("*.mp4")`: the mp4 entries of a listing, in listing order. */
  function Mp4Files(listing: seq<FileInfo>): (r: seq<FileInfo>)
    ensures forall f :: f in r <==> f in listing && IsMp4(f)
    ensures |r| <= |listing|
  {
    if |listing| == 0 then []
    else (if IsMp4(listing[0]) then [listing[0]] else []) + Mp4Files(listing[1..])
  }

  function Names(fs: seq<FileInfo>): (r: set<String>)
    ensures forall f :: f in fs ==> f.name in r
    ensures forall n :: n in r ==> exists f :: f in fs && f.name == n
  {
    set f | f in fs :: f.name
  }

  datatype Order = OldestFirst | NewestFirst

  /** The sort key: ascending mtime, or descending mtime for `reverse=True`. */
  function Key(f: FileInfo, order: Order): int
  {
    if order == OldestFirst then f.mtime else -f.mtime
  }

  /** `a` must be placed strictly before `b` in the given order. */
  predicate Precedes(a: FileInfo, b: FileInfo, order: Order)
  {
    Key(a, order) < Key(b, order)
  }

  predicate Sorted(s: seq<FileInfo>, order: Order)
  {
    forall i, j :: 0 <= i < j < |s| ==> Key(s[i], order) <= Key(s[j], order)
  }

  /** Places `x` after every element it does not strictly precede, which keeps the sort stable. */
  function Insert(x: FileInfo, s: seq<FileInfo>, order: Order): (r: seq<FileInfo>)
    ensures multiset(r) == multiset(s) + multiset{x}
  {
    if |s| == 0 then [x]
    else if Precedes(x, s[0], order) then [x] + s
    else
      assert s == [s[0]] + s[1..];
      [s[0]] + Insert(x, s[1..], order)
  }

  lemma ConsSorted(a: FileInfo, t: seq<FileInfo>, order: Order)
    requires Sorted(t, order)
    requires forall y :: y in t ==> Key(a, order) <= Key(y, order)
    ensures Sorted([a] + t, order)
  {
    var r := [a] + t;
    forall i, j | 0 <= i < j < |r| ensures Key(r[i], order) <= Key(r[j], order) {
      assert r[j] == t[j - 1];
      if i > 0 {
        assert r[i] == t[i - 1];
      } else {
        assert r[j] in t;
      }
    }
  }

  lemma {:induction false} InsertSorted(x: FileInfo, s: seq<FileInfo>, order: Order)
    requires Sorted(s, order)
    ensures Sorted(Insert(x, s, order), order)
    decreases |s|
  {
    if |s| > 0 {
      FirstIsExtreme(s, order);
      if Precedes(x, s[0], order) {
        ConsSorted(x, s, order);
      } else {
        var t := Insert(x, s[1..], order);
        InsertSorted(x, s[1..], order);
        forall y | y in t ensures Key(s[0], order) <= Key(y, order) {
          assert y in multiset(t);
          if y != x {
            assert y in multiset(s[1..]);
            assert y in s;
          }
        }
        ConsSorted(s[0], t, order);
      }
    }
  }

  /** `sorted(files, key=os.path.getmtime, reverse=(order == NewestFirst))`. */
  function SortByMtime(s: seq<FileInfo>, order: Order): (r: seq<FileInfo>)
    ensures Sorted(r, order)
    ensures multiset(r) == multiset(s)
    ensures |r| == |s|
  {
    if |s| == 0 then []
    else
      assert s == s[..|s| - 1] + [s[|s| - 1]];
      var prefix := SortByMtime(s[..|s| - 1], order);
      InsertSorted(s[|s| - 1], prefix, order);
      var r := Insert(s[|s| - 1], prefix, order);
      assert |r| == |multiset(r)| == |multiset(s)| == |s|;
      r
  }

  /** The head of a sorted listing is an extreme: nothing strictly precedes it. */
  lemma FirstIsExtreme(s: seq<FileInfo>, order: Order)
    requires Sorted(s, order) && |s| > 0
    ensures forall f :: f in s ==> Key(s[0], order) <= Key(f, order)
  {
    forall f | f in s ensures Key(s[0], order) <= Key(f, order) {
      var j :| 0 <= j < |s| && s[j] == f;
    }
  }

  /** The last element of a sorted listing is an extreme: it strictly precedes nothing. */
  lemma LastIsExtreme(s: seq<FileInfo>, order: Order)
    requires Sorted(s, order) && |s| > 0
    ensures forall f :: f in s ==> Key(f, order) <= Key(s[|s| - 1], order)
  {
    forall f | f in s ensures Key(f, order) <= Key(s[|s| - 1], order) {
      var j :| 0 <= j < |s| && s[j] == f;
    }
  }

  /**
   * `sorted(dir.glob("*.mp4"), key=getmtime, reverse=True)[0]`, or None when the
   * glob is empty: the most recently modified mp4.
   */
  function Latest(listing: seq<FileInfo>): (r: Option<FileInfo>)
    ensures r.None? <==> forall f :: f in listing ==> !IsMp4(f)
    ensures r.Some? ==> r.value in listing && IsMp4(r.value)
    ensures r.Some? ==> forall f :: f in listing && IsMp4(f) ==> f.mtime <= r.value.mtime
  {
    var mp4s := Mp4Files(listing);
    var sorted := SortByMtime(mp4s, NewestFirst);
    if |sorted| == 0 then
      assert forall f :: f in listing && IsMp4(f) ==> f in multiset(sorted);
      None
    else
      LatestIsNewest(mp4s, sorted);
      Some(sorted[0])
  }

  lemma LatestIsNewest(mp4s: seq<FileInfo>, sorted: seq<FileInfo>)
    requires Sorted(sorted, NewestFirst) && multiset(sorted) == multiset(mp4s) && |sorted| > 0
    ensures sorted[0] in mp4s
    ensures forall f :: f in mp4s ==> f.mtime <= sorted[0].mtime
  {
    FirstIsExtreme(sorted, NewestFirst);
    assert sorted[0] in multiset(mp4s);
    forall f | f in mp4s ensures f.mtime <= sorted[0].mtime {
      assert f in multiset(sorted);
    }
  }
}
