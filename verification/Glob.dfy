/** Repository path patterns: `**` takes any number of segments, any other segment exactly one. */
module Glob {

  /** How one path segment matches one pattern segment (`fnmatch.fnmatchcase`). */
  type SegmentMatch = (string, string) -> bool

  predicate HasGlob(pattern: seq<string>) {
    exists i :: 0 <= i < |pattern| && '*' in pattern[i]
  }

  /** The pattern is the path itself or one of its ancestors. */
  predicate Prefixes(pattern: seq<string>, path: seq<string>) {
    |pattern| <= |path| && path[..|pattern|] == pattern
  }

  /** The recursion that the matcher memoises, on what is left of pattern and path. */
  predicate Matches(fn: SegmentMatch, pattern: seq<string>, path: seq<string>)
    decreases |pattern| + |path|
  {
    if pattern == [] then path == []
    else if pattern[0] == "**" then
      Matches(fn, pattern[1..], path) || (path != [] && Matches(fn, pattern, path[1..]))
    else
      path != [] && fn(path[0], pattern[0]) && Matches(fn, pattern[1..], path[1..])
  }

  /** Segment `i` of the pattern is laid over the path from `cuts[i]` up to `cuts[i + 1]`. */
  predicate Covered(fn: SegmentMatch, pattern: seq<string>, path: seq<string>, cuts: seq<nat>, i: nat)
    requires i < |pattern| && |cuts| == |pattern| + 1
  {
    && cuts[i] <= cuts[i + 1] <= |path|
    && (pattern[i] != "**" ==> cuts[i + 1] == cuts[i] + 1 && fn(path[cuts[i]], pattern[i]))
  }

  /** The pattern laid over the whole path, from its first segment to its last. */
  ghost predicate Laid(fn: SegmentMatch, pattern: seq<string>, path: seq<string>, cuts: seq<nat>) {
    && |cuts| == |pattern| + 1 && cuts[0] == 0 && cuts[|pattern|] == |path|
    && forall i :: 0 <= i < |pattern| ==> Covered(fn, pattern, path, cuts, i)
  }

  /** The matcher answers yes exactly when the segments can be laid over the whole path. */
  lemma MatchesIffLaid(fn: SegmentMatch, pattern: seq<string>, path: seq<string>)
    ensures Matches(fn, pattern, path) <==> exists cuts :: Laid(fn, pattern, path, cuts)
  {
    if Matches(fn, pattern, path) {
      var cuts := LayOut(fn, pattern, path);
    }
    if cuts :| Laid(fn, pattern, path, cuts) {
      LaidMatches(fn, pattern, path, cuts);
    }
  }

  /** Moving a layout of what is left one path segment along, for a first segment that took it. */
  function Shift(cuts: seq<nat>): (r: seq<nat>)
    ensures |r| == |cuts|
  {
    seq(|cuts|, i requires 0 <= i < |cuts| => cuts[i] + 1)
  }

  lemma {:induction false} LayOut(fn: SegmentMatch, pattern: seq<string>, path: seq<string>) returns (cuts: seq<nat>)
    requires Matches(fn, pattern, path)
    ensures Laid(fn, pattern, path, cuts)
    decreases |pattern| + |path|
  {
    if pattern == [] {
      cuts := [0];
    } else if pattern[0] == "**" && Matches(fn, pattern[1..], path) {
      var rest := LayOut(fn, pattern[1..], path);
      cuts := [0] + rest;
      assert forall i :: 0 <= i < |pattern[1..]| ==> Covered(fn, pattern[1..], path, rest, i);
      forall i | 0 <= i < |pattern| ensures Covered(fn, pattern, path, cuts, i) {
        if i > 0 {
          assert Covered(fn, pattern[1..], path, rest, i - 1);
        }
      }
    } else if pattern[0] == "**" {
      var rest := LayOut(fn, pattern, path[1..]);
      cuts := [0] + Shift(rest)[1..];
      forall i | 0 <= i < |pattern| ensures Covered(fn, pattern, path, cuts, i) {
        assert Covered(fn, pattern, path[1..], rest, i);
      }
    } else {
      var rest := LayOut(fn, pattern[1..], path[1..]);
      cuts := [0] + Shift(rest);
      forall i | 0 <= i < |pattern| ensures Covered(fn, pattern, path, cuts, i) {
        if i > 0 {
          assert Covered(fn, pattern[1..], path[1..], rest, i - 1);
        }
      }
    }
  }

  lemma {:induction false} LaidMatches(fn: SegmentMatch, pattern: seq<string>, path: seq<string>, cuts: seq<nat>)
    requires Laid(fn, pattern, path, cuts)
    ensures Matches(fn, pattern, path)
    decreases |pattern| + |path|
  {
    if pattern == [] {
      assert |path| == 0;
    } else {
      CutsGrow(fn, pattern, path, cuts, 1);
      assert Covered(fn, pattern, path, cuts, 0);
      if cuts[1] == 0 {
        TailLaid(fn, pattern, path, cuts);
        LaidMatches(fn, pattern[1..], path, cuts[1..]);
      } else if pattern[0] == "**" {
        var back := [0] + seq(|pattern|, i requires 0 <= i < |pattern| => Before(fn, pattern, path, cuts, i + 1));
        BackLaid(fn, pattern, path, cuts, back);
        LaidMatches(fn, pattern, path[1..], back);
      } else {
        var back := seq(|pattern|, i requires 0 <= i < |pattern| => Before(fn, pattern, path, cuts, i + 1));
        StepLaid(fn, pattern, path, cuts, back);
        LaidMatches(fn, pattern[1..], path[1..], back);
      }
    }
  }

  lemma {:induction false} CutsGrow(fn: SegmentMatch, pattern: seq<string>, path: seq<string>, cuts: seq<nat>, i: nat)
    requires Laid(fn, pattern, path, cuts) && 1 <= i <= |pattern|
    ensures forall j :: i <= j <= |pattern| ==> cuts[i] <= cuts[j]
    decreases |pattern| - i
  {
    if i < |pattern| {
      CutsGrow(fn, pattern, path, cuts, i + 1);
      assert Covered(fn, pattern, path, cuts, i);
    }
  }

  /** A later cut, seen from one path segment further on. */
  ghost function Before(fn: SegmentMatch, pattern: seq<string>, path: seq<string>, cuts: seq<nat>, i: nat): nat
    requires Laid(fn, pattern, path, cuts) && 1 <= i <= |pattern|
  {
    if cuts[i] > 0 then cuts[i] - 1 else 0
  }

  lemma TailLaid(fn: SegmentMatch, pattern: seq<string>, path: seq<string>, cuts: seq<nat>)
    requires Laid(fn, pattern, path, cuts) && pattern != [] && cuts[1] == 0
    ensures Laid(fn, pattern[1..], path, cuts[1..])
  {
    forall i | 0 <= i < |pattern[1..]| ensures Covered(fn, pattern[1..], path, cuts[1..], i) {
      assert Covered(fn, pattern, path, cuts, i + 1);
    }
  }

  lemma BackLaid(fn: SegmentMatch, pattern: seq<string>, path: seq<string>, cuts: seq<nat>, back: seq<nat>)
    requires Laid(fn, pattern, path, cuts) && pattern != [] && pattern[0] == "**" && cuts[1] > 0
    requires forall j :: 1 <= j <= |pattern| ==> cuts[1] <= cuts[j]
    requires |back| == |pattern| + 1 && back[0] == 0 && forall i :: 1 <= i <= |pattern| ==> back[i] + 1 == cuts[i]
    ensures path != [] && Laid(fn, pattern, path[1..], back)
  {
    assert Covered(fn, pattern, path, cuts, 0);
    forall i | 0 <= i < |pattern| ensures Covered(fn, pattern, path[1..], back, i) {
      assert Covered(fn, pattern, path, cuts, i);
    }
  }

  lemma StepLaid(fn: SegmentMatch, pattern: seq<string>, path: seq<string>, cuts: seq<nat>, back: seq<nat>)
    requires Laid(fn, pattern, path, cuts) && pattern != [] && pattern[0] != "**"
    requires forall j :: 1 <= j <= |pattern| ==> cuts[1] <= cuts[j]
    requires |back| == |pattern| && forall i :: 0 <= i < |pattern| ==> back[i] + 1 == cuts[i + 1]
    ensures path != [] && fn(path[0], pattern[0]) && Laid(fn, pattern[1..], path[1..], back)
  {
    assert Covered(fn, pattern, path, cuts, 0);
    forall i | 0 <= i < |pattern[1..]| ensures Covered(fn, pattern[1..], path[1..], back, i) {
      assert Covered(fn, pattern, path, cuts, i + 1);
    }
  }

  /** The memoised matcher of one pattern and one path. */
  class Matcher {
    const fn: SegmentMatch
    const pattern: seq<string>
    const path: seq<string>
    var cache: map<(nat, nat), bool>

    ghost predicate Valid()
      reads this
    {
      forall k :: k in cache ==>
        k.0 <= |pattern| && k.1 <= |path| && (cache[k] <==> Matches(fn, pattern[k.0..], path[k.1..]))
    }

    constructor (fn: SegmentMatch, pattern: seq<string>, path: seq<string>)
      ensures Valid() && this.fn == fn && this.pattern == pattern && this.path == path
    {
      this.fn, this.pattern, this.path := fn, pattern, path;
      cache := map[];
    }

    method Match(i: nat, j: nat) returns (r: bool)
      requires Valid() && i <= |pattern| && j <= |path|
      modifies this
      ensures Valid() && r == Matches(fn, pattern[i..], path[j..])
      decreases |pattern| - i + |path| - j
    {
      if (i, j) in cache {
        return cache[(i, j)];
      }
      if i == |pattern| {
        r := j == |path|;
      } else if pattern[i] == "**" {
        assert pattern[i..][1..] == pattern[i + 1..];
        r := Match(i + 1, j);
        if !r && j < |path| {
          assert path[j..][1..] == path[j + 1..];
          r := Match(i, j + 1);
        }
      } else if j < |path| && fn(path[j], pattern[i]) {
        assert pattern[i..][1..] == pattern[i + 1..] && path[j..][1..] == path[j + 1..];
        r := Match(i + 1, j + 1);
      } else {
        r := false;
      }
      cache := cache[(i, j) := r];
    }
  }

  /** What a pattern means: with a `*` anywhere it is a glob, otherwise it names a file or a directory. */
  ghost predicate Means(fn: SegmentMatch, pattern: seq<string>, path: seq<string>) {
    if HasGlob(pattern) then exists cuts :: Laid(fn, pattern, path, cuts) else Prefixes(pattern, path)
  }

  method PatternMatches(fn: SegmentMatch, pattern: seq<string>, path: seq<string>) returns (r: bool)
    ensures r <==> Means(fn, pattern, path)
  {
    if !HasGlob(pattern) {
      return |pattern| <= |path| && path[..|pattern|] == pattern;
    }
    MatchesIffLaid(fn, pattern, path);
    var matcher := new Matcher(fn, pattern, path);
    r := matcher.Match(0, 0);
    assert pattern[0..] == pattern && path[0..] == path;
  }

  /** Without a `*`, a pattern is that path and everything below it, compared literally: `?` and `[` are not special. */
  lemma {:induction false} LiteralIsSubtree(pattern: seq<string>, path: seq<string>)
    requires !HasGlob(pattern)
    ensures Prefixes(pattern, path) <==> Matches((s: string, p: string) => s == p, pattern + ["**"], path)
  {
    var same := (s: string, p: string) => s == p;
    if pattern == [] {
      assert pattern + ["**"] == ["**"];
      StarTakesAll(same, path);
    } else {
      assert '*' !in pattern[0] && pattern[0] != "**" by {
        assert '*' in "**" by { assert "**"[0] == '*'; }
      }
      assert (pattern + ["**"])[1..] == pattern[1..] + ["**"];
      if path != [] {
        forall i | 0 <= i < |pattern[1..]| ensures '*' !in pattern[1..][i] {
          assert pattern[1..][i] == pattern[i + 1];
        }
        LiteralIsSubtree(pattern[1..], path[1..]);
        assert Prefixes(pattern, path) <==> path[0] == pattern[0] && Prefixes(pattern[1..], path[1..]) by {
          assert pattern == [pattern[0]] + pattern[1..] && path == [path[0]] + path[1..];
        }
      }
    }
  }

  /** `**` on its own matches every path, the empty one included. */
  lemma {:induction false} StarTakesAll(fn: SegmentMatch, path: seq<string>)
    ensures Matches(fn, ["**"], path)
  {
    var nothing: seq<string> := [];
    assert ["**"][1..] == nothing;
    if path != [] {
      StarTakesAll(fn, path[1..]);
    }
  }

  /** Writing `**` twice in a row means what writing it once means. */
  lemma {:induction false} DoubleStar(fn: SegmentMatch, rest: seq<string>, path: seq<string>)
    ensures Matches(fn, ["**", "**"] + rest, path) <==> Matches(fn, ["**"] + rest, path)
    decreases |path|
  {
    assert (["**", "**"] + rest)[1..] == ["**"] + rest;
    assert (["**"] + rest)[1..] == rest;
    if path != [] {
      DoubleStar(fn, rest, path[1..]);
    }
  }
}
