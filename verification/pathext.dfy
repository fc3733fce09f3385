/**
 * Node's POSIX `path.extname`, and the case-insensitive `.flac` test that the
 * catalog rebuild applies to every directory entry.
 */
module PathExt {

  /** Position of the last `c` in `s`, or -1 when `s` has none. */
  function LastIndexOf(s: string, c: char): (r: int)
    ensures -1 <= r < |s|
    ensures r >= 0 ==> s[r] == c
    ensures forall k :: r < k < |s| ==> s[k] != c
  {
    if |s| == 0 then -1
    else if s[|s| - 1] == c then |s| - 1
    else LastIndexOf(s[..|s| - 1], c)
  }

  /** `p` without its run of trailing `/` separators. */
  function TrimTrailingSlashes(p: string): (r: string)
    ensures |r| <= |p| && r == p[..|r|]
    ensures r == [] || r[|r| - 1] != '/'
    ensures forall k :: |r| <= k < |p| ==> p[k] == '/'
  {
    if |p| > 0 && p[|p| - 1] == '/' then TrimTrailingSlashes(p[..|p| - 1]) else p
  }

  /** The text after the last `/` of `t`: the last path segment once trailing separators are gone. */
  function LastSegment(t: string): (r: string)
    ensures |r| <= |t| && r == t[|t| - |r|..]
    ensures forall k :: 0 <= k < |r| ==> r[k] != '/'
  {
    t[LastIndexOf(t, '/') + 1..]
  }

  /**
   * The extension of one path segment: from its last `.` to its end, except
   * that a segment whose only dot is its first character (`.flac`), a segment
   * without a dot, and the segment `..` have none.
   */
  function SegmentExt(seg: string): (r: string)
    ensures r != [] ==> LastIndexOf(seg, '.') > 0 && r == seg[LastIndexOf(seg, '.')..]
    ensures r == [] || (r[0] == '.' && forall k :: 1 <= k < |r| ==> r[k] != '.')
  {
    var dot := LastIndexOf(seg, '.');
    if dot <= 0 || seg == ".." then [] else seg[dot..]
  }

  /** A segment has an extension exactly when it is not `..` and has a `.` after its first character. */
  lemma SegmentExtNonEmpty(seg: string)
    ensures SegmentExt(seg) != [] <==> seg != ".." && exists k :: 0 < k < |seg| && seg[k] == '.'
  {
    if k :| 0 < k < |seg| && seg[k] == '.' {
      assert LastIndexOf(seg, '.') >= k;
    }
  }

  /** `r` is empty, or a proper suffix of `t` that follows a character other than `/`. */
  predicate SuffixAfterSegmentChar(r: string, t: string) {
    r != [] ==> |r| < |t| && r == t[|t| - |r|..] && t[|t| - |r| - 1] != '/'
  }

  /**
   * A proper suffix of a `/`-free suffix of `t` holds no `/` and follows a
   * character other than `/`.
   */
  lemma SuffixOfSegment(t: string, segment: string, r: string, d: int)
    requires |segment| <= |t| && segment == t[|t| - |segment|..]
    requires forall k :: 0 <= k < |segment| ==> segment[k] != '/'
    requires r != [] ==> 0 < d <= |segment| && r == segment[d..]
    ensures SuffixAfterSegmentChar(r, t)
    ensures forall k :: 0 <= k < |r| ==> r[k] != '/'
  {
    if r != [] {
      var a := |t| - |segment|;
      var b := d;
      assert r == t[a + b..];
      assert t[a + b - 1] == segment[b - 1];
      forall k | 0 <= k < |r| ensures r[k] != '/' {
        assert r[k] == segment[b + k];
      }
    }
  }

  /**
   * The extension sits inside its own segment: it holds no `/` and never
   * follows one.
   */
  lemma ExtInsideSegment(p: string)
    ensures var r := SegmentExt(LastSegment(TrimTrailingSlashes(p)));
            SuffixAfterSegmentChar(r, TrimTrailingSlashes(p)) && forall k :: 0 <= k < |r| ==> r[k] != '/'
  {
    var t := TrimTrailingSlashes(p);
    var segment := LastSegment(t);
    SuffixOfSegment(t, segment, SegmentExt(segment), LastIndexOf(segment, '.'));
  }

  /** A directory entry (no `/`) is its own last segment. */
  lemma EntryIsOwnSegment(p: string)
    requires forall k :: 0 <= k < |p| ==> p[k] != '/'
    ensures LastSegment(TrimTrailingSlashes(p)) == p
  {
    assert |p| > 0 ==> p[|p| - 1] != '/';
    var i := LastIndexOf(p, '/');
    if i >= 0 {
      assert false;
    }
    assert p[i + 1..] == p;
  }

  /**
   * `path.extname(p)`: the extension of the last non-empty path segment. For a
   * directory entry (no `/`), it is present exactly when the name is not `..`
   * and has a `.` after its first character, and it then runs from the last `.`
   * to the end.
   */
  function Extname(p: string): (r: string)
    ensures r == [] || (r[0] == '.' && forall k :: 1 <= k < |r| ==> r[k] != '.' && r[k] != '/')
    ensures (forall k :: 0 <= k < |p| ==> p[k] != '/') ==>
              (r != [] <==> p != ".." && exists k :: 0 < k < |p| && p[k] == '.')
    ensures (forall k :: 0 <= k < |p| ==> p[k] != '/') && r != [] ==>
              LastIndexOf(p, '.') > 0 && r == p[LastIndexOf(p, '.')..]
  {
    ExtInsideSegment(p);
    if forall k :: 0 <= k < |p| ==> p[k] != '/' then
      EntryIsOwnSegment(p);
      SegmentExtNonEmpty(p);
      SegmentExt(LastSegment(TrimTrailingSlashes(p)))
    else
      SegmentExt(LastSegment(TrimTrailingSlashes(p)))
  }

  /**
   * A non-empty extension is a proper suffix of the path without its trailing
   * separators, and follows a character other than `/`.
   */
  lemma ExtnameInLastSegment(p: string)
    ensures SuffixAfterSegmentChar(Extname(p), TrimTrailingSlashes(p))
  {
    ExtInsideSegment(p);
  }

  /** `String.prototype.toLowerCase` on one character, for the ASCII letters. */
  function LowerChar(c: char): char {
    if 'A' <= c <= 'Z' then (c as int + 32) as char else c
  }

  function Lower(s: string): (r: string)
    ensures |r| == |s|
  {
    seq(|s|, i requires 0 <= i < |s| => LowerChar(s[i]))
  }

  /**
   * The catalog filter: `path.extname(name).toLowerCase() === '.flac'`. For a
   * directory entry (a name with no `/`) it holds exactly when the name is
   * longer than five characters and ends in `.flac` in any letter case; a bare
   * `.flac` is a hidden file with no extension and is not accepted.
   */
  predicate IsFlac(name: string)
    ensures (forall k :: 0 <= k < |name| ==> name[k] != '/') ==>
              (IsFlac(name) <==> |name| > 5 && Lower(name[|name| - 5..]) == ".flac")
  {
    FlacBySuffix(name);
    Lower(Extname(name)) == ".flac"
  }

  lemma LowerSuffixFacts(t: string)
    requires Lower(t) == ".flac"
    ensures |t| == 5 && t[0] == '.'
    ensures forall k :: 1 <= k < 5 ==> t[k] != '.'
  {
    assert |t| == |Lower(t)| == 5;
    assert LowerChar(t[0]) == Lower(t)[0] == '.';
    forall k | 1 <= k < 5
      ensures t[k] != '.'
    {
      assert LowerChar(t[k]) == Lower(t)[k] == ".flac"[k];
    }
  }

  /** For a directory entry, the extension test reduces to the name's last five characters. */
  lemma FlacBySuffix(name: string)
    ensures (forall k :: 0 <= k < |name| ==> name[k] != '/') ==>
              (Lower(Extname(name)) == ".flac" <==> |name| > 5 && Lower(name[|name| - 5..]) == ".flac")
  {
    if forall k :: 0 <= k < |name| ==> name[k] != '/' {
      var dot := LastIndexOf(name, '.');
      if dot > 0 && name != ".." {
        assert name[dot] == '.';
      }
      ExtAtLastDot(name, Extname(name), dot);
    }
  }

  /**
   * An extension taken at the last `.` of a name, present exactly when that
   * `.` is not the first character, lower-cases to `.flac` exactly when the
   * name's last five characters do.
   */
  lemma ExtAtLastDot(name: string, ext: string, dot: int)
    requires -1 <= dot < |name| && (dot >= 0 ==> name[dot] == '.')
    requires forall k :: dot < k < |name| ==> name[k] != '.'
    requires dot > 0 && name != ".." ==> ext != []
    requires ext != [] ==> dot > 0 && ext == name[dot..]
    ensures Lower(ext) == ".flac" <==> |name| > 5 && Lower(name[|name| - 5..]) == ".flac"
  {
    if Lower(ext) == ".flac" {
      LowerSuffixFacts(ext);
    }
    if |name| > 5 && Lower(name[|name| - 5..]) == ".flac" {
      var t := name[|name| - 5..];
      LowerSuffixFacts(t);
      assert name[|name| - 5] == '.';
      forall k | |name| - 5 < k < |name|
        ensures name[k] != '.'
      {
        assert name[k] == t[k - (|name| - 5)];
      }
      assert dot == |name| - 5;
    }
  }
}
