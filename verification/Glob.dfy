/** Artifact globs (libreevolve/core/evaluator.py, `_artifact_glob_match_segments`): patterns
    and paths as lists of segments, with `**` for any run of segments. */
module Glob {

  const ANY_RUN := "**"

  /** `fnmatch.fnmatchcase(name, pattern)` on one segment. */
  type SegmentMatch = (string, string) -> bool

  predicate Matches(fnmatch: SegmentMatch, pattern: seq<string>, path: seq<string>)
    decreases |pattern| + |path|
  {
    if pattern == [] then path == []
    else if pattern[0] == ANY_RUN then
      || Matches(fnmatch, pattern[1..], path)
      || (path != [] && Matches(fnmatch, pattern, path[1..]))
    else path != [] && fnmatch(path[0], pattern[0]) && Matches(fnmatch, pattern[1..], path[1..])
  }

  /** The path can be cut so that the parts match the two patterns. */
  predicate Splits(fnmatch: SegmentMatch, p: seq<string>, q: seq<string>, path: seq<string>) {
    exists i :: 0 <= i <= |path| && SplitsAt(fnmatch, p, q, path, i)
  }

  predicate SplitsAt(fnmatch: SegmentMatch, p: seq<string>, q: seq<string>, path: seq<string>, i: nat)
    requires i <= |path|
  {
    Matches(fnmatch, p, path[..i]) && Matches(fnmatch, q, path[i..])
  }

  /** `**` alone matches every path; any other single segment matches one segment. */
  lemma {:induction false} OneSegment(fnmatch: SegmentMatch, segment: string, path: seq<string>)
    ensures Matches(fnmatch, [segment], path) <==> segment == ANY_RUN || (|path| == 1 && fnmatch(path[0], segment))
    decreases |path|
  {
    assert [segment][1..] == [];
    if segment == ANY_RUN {
      if path != [] { OneSegment(fnmatch, segment, path[1..]); }
    } else if |path| == 1 {
      assert path[1..] == [];
    }
  }

  /** A cut of the rest of the path is a cut of the path. */
  lemma {:induction false} CutAfterFirst(fnmatch: SegmentMatch, p: seq<string>, rest: seq<string>, q: seq<string>,
                                         path: seq<string>)
    requires path != [] && Splits(fnmatch, rest, q, path[1..])
    requires forall part: seq<string> ::
      part != [] && part[0] == path[0] && Matches(fnmatch, rest, part[1..]) ==> Matches(fnmatch, p, part)
    ensures Splits(fnmatch, p, q, path)
  {
    var i :| 0 <= i <= |path[1..]| && SplitsAt(fnmatch, rest, q, path[1..], i);
    assert path[..i + 1][1..] == path[1..][..i];
    assert path[i + 1..] == path[1..][i..];
    assert SplitsAt(fnmatch, p, q, path, i + 1);
  }

  lemma {:induction false} JoinedMatchSplits(fnmatch: SegmentMatch, p: seq<string>, q: seq<string>, path: seq<string>)
    requires Matches(fnmatch, p + q, path)
    ensures Splits(fnmatch, p, q, path)
    decreases |p| + |path|
  {
    if p == [] {
      assert p + q == q && path[..0] == [] && path[0..] == path;
      assert SplitsAt(fnmatch, p, q, path, 0);
    } else {
      assert (p + q)[1..] == p[1..] + q;
      if p[0] == ANY_RUN && Matches(fnmatch, p[1..] + q, path) {
        JoinedMatchSplits(fnmatch, p[1..], q, path);
        var i :| 0 <= i <= |path| && SplitsAt(fnmatch, p[1..], q, path, i);
        assert SplitsAt(fnmatch, p, q, path, i);
      } else if p[0] == ANY_RUN {
        JoinedMatchSplits(fnmatch, p, q, path[1..]);
        CutAfterFirst(fnmatch, p, p, q, path);
      } else {
        JoinedMatchSplits(fnmatch, p[1..], q, path[1..]);
        CutAfterFirst(fnmatch, p, p[1..], q, path);
      }
    }
  }

  lemma {:induction false} SplitMatchJoins(
      fnmatch: SegmentMatch, p: seq<string>, q: seq<string>, path: seq<string>, i: nat)
    requires i <= |path| && SplitsAt(fnmatch, p, q, path, i)
    ensures Matches(fnmatch, p + q, path)
    decreases |p| + i
  {
    if p == [] {
      assert p + q == q && path[0..] == path;
    } else {
      assert (p + q)[1..] == p[1..] + q;
      if p[0] == ANY_RUN && Matches(fnmatch, p[1..], path[..i]) {
        SplitMatchJoins(fnmatch, p[1..], q, path, i);
      } else {
        var rest := if p[0] == ANY_RUN then p else p[1..];
        assert path[..i][1..] == path[1..][..i - 1] && path[i..] == path[1..][i - 1..];
        SplitMatchJoins(fnmatch, rest, q, path[1..], i - 1);
      }
    }
  }

  /** A pattern made of two parts matches exactly the paths that can be cut into a part that
      matches the first and a part that matches the second. */
  lemma {:induction false} GlobComposes(fnmatch: SegmentMatch, p: seq<string>, q: seq<string>, path: seq<string>)
    ensures Matches(fnmatch, p + q, path) <==> Splits(fnmatch, p, q, path)
  {
    hide Matches, SplitsAt;
    if Matches(fnmatch, p + q, path) { JoinedMatchSplits(fnmatch, p, q, path); }
    if Splits(fnmatch, p, q, path) {
      var i :| 0 <= i <= |path| && SplitsAt(fnmatch, p, q, path, i);
      SplitMatchJoins(fnmatch, p, q, path, i);
    }
  }
}
