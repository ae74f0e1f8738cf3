/**
How a selector is split for a registry query: the leading named hops give the
point to search from, the remaining hops are matched below it.
 */
module SelectorQuery {
  import opened Points
  import opened PointPrinter
  import opened Selectors

  /** The hop names one segment and nothing else. */
  predicate NamesSegment(hop: Hop) {
    hop.segment.Exact? && !hop.inclusive
  }

  /** The segments of the longest run of naming hops at the front. */
  function QueryRootSegs(hops: seq<Hop>): (segs: seq<PointSeg>)
    ensures |segs| <= |hops|
    ensures forall i :: 0 <= i < |segs| ==> NamesSegment(hops[i]) && segs[i] == NamedBy(hops[i].segment.exact)
    ensures |segs| < |hops| ==> !NamesSegment(hops[|segs|])
    // the same in full
    ensures forall i :: 0 <= i < |segs| ==>
              && !hops[i].inclusive
              && (hops[i].segment == Exact(ExactSeg(segs[i]))
                  || (segs[i].Version? && hops[i].segment == Exact(ExactVersion(segs[i].version))))
    ensures |segs| < |hops| ==> hops[|segs|].inclusive || !hops[|segs|].segment.Exact?
  {
    if |hops| == 0 || !NamesSegment(hops[0]) then []
    else
      var rest := QueryRootSegs(hops[1..]);
      assert forall i :: 0 < i < 1 + |rest| ==> hops[i] == hops[1..][i - 1];
      [NamedBy(hops[0].segment.exact)] + rest
  }

  method QueryRoot(self: Selector) returns (r: Point)
    ensures r == PointDef(This, QueryRootSegs(self.hops))
  {
    var segments: seq<PointSeg> := [];
    var i := 0;
    while i < |self.hops|
      invariant i <= |self.hops| && |segments| == i
      invariant forall j :: 0 <= j < i ==>
                  NamesSegment(self.hops[j]) && segments[j] == NamedBy(self.hops[j].segment.exact)
    {
      var hop := self.hops[i];
      if hop.segment.Exact? {
        if hop.inclusive {
          break;
        }
        match hop.segment.exact {
          case ExactSeg(seg) => segments := segments + [seg];
          case ExactVersion(version) => segments := segments + [Version(version)];
        }
      } else {
        break;
      }
      i := i + 1;
    }
    assert |QueryRootSegs(self.hops)| == i;
    assert segments == QueryRootSegs(self.hops);
    r := PointDef(This, segments);
  }

  /** The removal loop never meets an empty list. */
  method SubSelectHops(self: Selector) returns (hops: seq<Hop>)
    ensures hops == self.hops[|QueryRootSegs(self.hops)|..]
  {
    hops := self.hops;
    var root := QueryRoot(self);
    var queryRootSegments := |root.segments|;
    for i := 0 to queryRootSegments
      invariant hops == self.hops[i..]
    {
      assert |hops| > 0;
      hops := hops[1..];
    }
  }

  // ---------------------------------------------------------------- the split preserves meaning

  lemma {:induction false} NamedPrefix(hops: seq<Hop>, segs: seq<PointKindSegOpt>, i: nat, k: nat)
    requires i <= k <= |hops| && i <= |segs|
    requires forall j :: 0 <= j < k ==> NamesSegment(hops[j])
    ensures MatchesAt(hops, segs, i, i) <==>
            && k <= |segs|
            && (forall j :: i <= j < k ==> hops[j].IsMatch(segs[j]))
            && MatchesAt(hops, segs, k, k)
    decreases k - i
  {
    if i < k && i < |segs| {
      if i + 1 < |segs| {
        NamedPrefix(hops, segs, i + 1, k);
      } else if k == i + 1 {
        assert MatchesAt(hops, segs, k, k) <==> k == |hops|;
      }
    }
  }

  /**
  A selector matches exactly the hierarchies whose first segments meet the
  hops of the query root, kinds included, and whose rest is matched by the
  hops left for the sub-select.
   */
  lemma QuerySplit(selector: Selector, hierarchy: Hierarchy)
    ensures selector.MatchesFoundOpt(hierarchy) <==>
            var k := |QueryRootSegs(selector.hops)|;
            && k <= |hierarchy.segments|
            && PointwiseMatch(selector.hops, hierarchy.segments, k)
            && Selector(selector.always, selector.hops[k..]).MatchesFoundOpt(
                 PointDef(hierarchy.route, hierarchy.segments[k..]))
  {
    var k := |QueryRootSegs(selector.hops)|;
    Refinement(selector, hierarchy);
    NamedPrefix(selector.hops, hierarchy.segments, 0, k);
    if k <= |hierarchy.segments| {
      RefinementAt(selector, hierarchy, k, k);
    }
  }

  /** Every match lies at or below the query root, up to the spelling of its segments. */
  lemma MatchesLieBelowQueryRoot(selector: Selector, hierarchy: Hierarchy)
    requires selector.MatchesFoundOpt(hierarchy)
    ensures var root := QueryRootSegs(selector.hops);
            && |root| <= |hierarchy.segments|
            && forall i :: 0 <= i < |root| ==> root[i].Text() == hierarchy.segments[i].segment.Text()
  {
    QuerySplit(selector, hierarchy);
    var root := QueryRootSegs(selector.hops);
    forall i | 0 <= i < |root|
      ensures root[i].Text() == hierarchy.segments[i].segment.Text()
    {
      assert selector.hops[i].IsMatch(hierarchy.segments[i]);
    }
  }

  // ---------------------------------------------------------------- spelling decides segments

  predicate SameTexts(a: seq<PointSeg>, b: seq<PointSeg>) {
    |a| == |b| && forall i | 0 <= i < |a| :: a[i].Text() == b[i].Text()
  }

  lemma {:induction false} FileTextsDecideSegments(a: seq<PointSeg>, b: seq<PointSeg>)
    requires SameTexts(a, b) && WellFormedFiles(a) && WellFormedFiles(b)
    ensures a == b
  {
    if |a| > 0 {
      var text := a[0].Text();
      assert b[0].Text() == text;
      assert text[|text| - 1] == '/' ==> '/' in text;
      FileTextsDecideSegments(a[1..], b[1..]);
      assert a == [a[0]] + a[1..] && b == [b[0]] + b[1..];
    }
  }

  lemma {:induction false} TailTextsDecideSegments(a: seq<PointSeg>, b: seq<PointSeg>, isVersion: string -> bool)
    requires SameTexts(a, b) && WellFormedTail(a, isVersion) && WellFormedTail(b, isVersion)
    ensures a == b
  {
    if |a| > 0 {
      assert b[0].Text() == a[0].Text();
      assert a[0].FsRootDir? <==> '/' in a[0].Text();
      assert b[0].FsRootDir? <==> '/' in b[0].Text();
      if a[0].FsRootDir? {
        FileTextsDecideSegments(a[1..], b[1..]);
      } else {
        TailTextsDecideSegments(a[1..], b[1..], isVersion);
      }
      assert a == [a[0]] + a[1..] && b == [b[0]] + b[1..];
    }
  }

  lemma {:induction false} FilesPrefixWellFormed(segments: seq<PointSeg>, n: nat)
    requires WellFormedFiles(segments) && n <= |segments|
    ensures WellFormedFiles(segments[..n])
  {
    if n > 0 && |segments| > 0 {
      FilesPrefixWellFormed(segments[1..], n - 1);
      assert segments[..n][1..] == segments[1..][..n - 1];
    }
  }

  lemma {:induction false} TailPrefixWellFormed(segments: seq<PointSeg>, n: nat, isVersion: string -> bool)
    requires WellFormedTail(segments, isVersion) && n <= |segments|
    ensures WellFormedTail(segments[..n], isVersion)
  {
    if n > 0 && |segments| > 0 {
      assert segments[..n][1..] == segments[1..][..n - 1];
      if segments[0].FsRootDir? {
        FilesPrefixWellFormed(segments[1..], n - 1);
      } else {
        TailPrefixWellFormed(segments[1..], n - 1, isVersion);
      }
    }
  }

  lemma PrefixWellFormed(p: Point, n: nat, isVersion: string -> bool)
    requires WellFormed(p, isVersion) && n <= |p.segments|
    ensures WellFormed(Prefix(p, n), isVersion)
  {
    if n > 0 {
      assert p.segments[..n][1..] == p.segments[1..][..n - 1];
      TailPrefixWellFormed(p.segments[1..], n - 1, isVersion);
    }
  }

  /** Among well-formed points the texts of the segments decide the segments. */
  lemma TextsDecideSegments(a: Point, b: Point, isVersion: string -> bool)
    requires WellFormed(a, isVersion) && WellFormed(b, isVersion) && SameTexts(a.segments, b.segments)
    ensures a.segments == b.segments
  {
    if |a.segments| > 0 {
      TailTextsDecideSegments(a.segments[1..], b.segments[1..], isVersion);
      assert a.segments[0].Text() == b.segments[0].Text();
      assert a.segments == [a.segments[0]] + a.segments[1..] && b.segments == [b.segments[0]] + b.segments[1..];
    }
  }

  /** Below one parent the texts of the relative segments decide a well-formed point. */
  lemma RelativeSegsDecide(a: Point, b: Point, parent: Point, isVersion: string -> bool)
    requires WellFormed(a, isVersion) && WellFormed(b, isVersion)
    requires Ancestor(parent, a) && Ancestor(parent, b)
    requires RelativeTo(a, parent) == RelativeTo(b, parent)
    ensures a == b
  {
    var n := |parent.segments|;
    var textsA, textsB := RelativeTo(a, parent).value, RelativeTo(b, parent).value;
    assert |textsA| == |a.segments| - n && |textsB| == |b.segments| - n;
    forall i | 0 <= i < |a.segments|
      ensures a.segments[i].Text() == b.segments[i].Text()
    {
      if i < n {
        assert a.segments[i] == parent.segments[i] == b.segments[i];
      } else {
        assert textsA[i - n] == a.segments[i].Text() && textsB[i - n] == b.segments[i].Text();
      }
    }
    TextsDecideSegments(a, b, isVersion);
  }

  /** The hierarchy of a point, as the registry records it. */
  ghost predicate HierarchyOf(hierarchy: Hierarchy, point: Point) {
    && hierarchy.route == point.route
    && |hierarchy.segments| == |point.segments|
    && forall i :: 0 <= i < |point.segments| ==> hierarchy.segments[i].segment == point.segments[i]
  }

  // ---------------------------------------------------------------- the query root and its matches

  /**
  Segments as the hops of a selector name them behind the first: bases and
  versions without a slash, then possibly the filesystem root and directories
  and files with any text.  The parser of selectors yields no others.
   */
  predicate QueryTail(segments: seq<PointSeg>) {
    || |segments| == 0
    || ((segments[0].Base? || segments[0].Version?) && '/' !in segments[0].Text() && QueryTail(segments[1..]))
    || (segments[0].FsRootDir? && FilesOnly(segments[1..]))
  }

  predicate FilesOnly(segments: seq<PointSeg>) {
    forall i | 0 <= i < |segments| :: segments[i].Dir? || segments[i].File?
  }

  predicate QueryPath(segments: seq<PointSeg>) {
    |segments| > 0 ==> QueryTail(segments[1..])
  }

  lemma {:induction false} FilesPrintAlike(root: seq<PointSeg>, files: seq<PointSeg>)
    requires SameTexts(root, files) && FilesOnly(root) && WellFormedFiles(files)
    ensures Tail(root) == Tail(files)
  {
    if |root| > 0 {
      assert root[0].Text() == files[0].Text();
      FilesPrintAlike(root[1..], files[1..]);
    }
  }

  lemma {:induction false} TailsPrintAlike(root: seq<PointSeg>, tail: seq<PointSeg>, isVersion: string -> bool)
    requires SameTexts(root, tail) && QueryTail(root) && WellFormedTail(tail, isVersion)
    ensures Tail(root) == Tail(tail)
  {
    if |root| > 0 {
      assert root[0].Text() == tail[0].Text();
      assert root[0].FsRootDir? <==> '/' in root[0].Text();
      assert tail[0].FsRootDir? <==> '/' in tail[0].Text();
      if root[0].FsRootDir? {
        FilesPrintAlike(root[1..], tail[1..]);
      } else {
        TailsPrintAlike(root[1..], tail[1..], isVersion);
      }
    }
  }

  /** The query root of a selector that matches a point prints like a prefix of the point. */
  lemma QueryRootPrintsAsPrefix(selector: Selector, hierarchy: Hierarchy, point: Point, isVersion: string -> bool)
    requires HierarchyOf(hierarchy, point) && selector.MatchesFoundOpt(hierarchy)
    requires WellFormed(point, isVersion) && QueryPath(QueryRootSegs(selector.hops))
    ensures var root := QueryRootSegs(selector.hops);
            |root| <= |point.segments| && SegmentsText(root) == Postfix(Prefix(point, |root|))
  {
    MatchesLieBelowQueryRoot(selector, hierarchy);
    var root := QueryRootSegs(selector.hops);
    if |root| > 0 {
      var prefix := Prefix(point, |root|);
      PrefixWellFormed(point, |root|, isVersion);
      assert SameTexts(root[1..], prefix.segments[1..]);
      TailsPrintAlike(root[1..], prefix.segments[1..], isVersion);
      assert root[0].Text() == prefix.segments[0].Text();
    }
  }

  /**
  The query root of a selector that matches a local point is an ancestor of the
  point exactly when it is well-formed; the selector alone decides.
   */
  lemma QueryRootIsAncestor(selector: Selector, hierarchy: Hierarchy, point: Point, isVersion: string -> bool)
    requires HierarchyOf(hierarchy, point) && selector.MatchesFoundOpt(hierarchy)
    requires point.route == This && WellFormed(point, isVersion)
    ensures var root := PointDef(This, QueryRootSegs(selector.hops));
            Ancestor(root, point) <==> WellFormed(root, isVersion)
  {
    MatchesLieBelowQueryRoot(selector, hierarchy);
    var root := PointDef(This, QueryRootSegs(selector.hops));
    var prefix := Prefix(point, |root.segments|);
    PrefixWellFormed(point, |root.segments|, isVersion);
    if WellFormed(root, isVersion) {
      TextsDecideSegments(root, prefix, isVersion);
    } else {
      assert root != prefix;
    }
  }

  /**
  A version in a selector is parsed as a base.  Such a selector matches its
  bundle, though its query root is no ancestor of the bundle; it prints like it.
   */
  lemma VersionNamedAsBase(isVersion: string -> bool)
    requires isVersion("1.0.0")
    ensures var selector := Selector(false, [Named(Space("repo")), Named(Base("1.0.0"))]);
            var point: Point := PointDef(This, [Space("repo"), Version("1.0.0")]);
            var root: Point := PointDef(This, QueryRootSegs(selector.hops));
            && selector.MatchesFoundOpt(OptHierarchyOfPoint(point)) && WellFormed(point, isVersion)
            && !Ancestor(root, point) && Postfix(root) == Postfix(point)
  {
    hide Selector.MatchesFoundOpt, QueryRootSegs, SegmentsText;
    var hops := [Named(Space("repo")), Named(Base("1.0.0"))];
    var selector := Selector(false, hops);
    var point: Point := PointDef(This, [Space("repo"), Version("1.0.0")]);
    var hierarchy := OptHierarchyOfPoint(point);
    VersionIsWellFormed(isVersion);
    PlainSelectorMatches(selector, hierarchy);
    var root := QueryRootSegs(hops);
    assert |root| == 2 && root == [Space("repo"), Base("1.0.0")];
    assert root[1] != point.segments[1];
    QueryRootPrintsAsPrefix(selector, hierarchy, point, isVersion);
    assert point.segments[..2] == point.segments;
  }

  lemma VersionIsWellFormed(isVersion: string -> bool)
    requires isVersion("1.0.0")
    ensures WellFormed(PointDef(This, [Space("repo"), Version("1.0.0")]), isVersion)
    ensures QueryPath([Space("repo"), Base("1.0.0")])
  {
    var segments := [Space("repo"), Version("1.0.0")];
    assert segments[1..] == [Version("1.0.0")] && segments[1..][1..] == [];
    assert [Space("repo"), Base("1.0.0")][1..] == [Base("1.0.0")] && [Base("1.0.0")][1..] == [];
  }

  // ---------------------------------------------------------------- matching a point without kinds

  /** Matching a bare point is matching its hierarchy with the kinds dropped. */
  lemma PointMatchIsErased(selector: Selector, hierarchy: Hierarchy, point: Point)
    requires HierarchyOf(hierarchy, point)
    ensures OptHierarchyOfPoint(point) == Erased(hierarchy)
    ensures selector.IsMatch(point) <==> selector.always || selector.MatchesFoundOpt(Erased(hierarchy))
    ensures ChoicesIgnoreKinds(selector.hops) && selector.MatchesFoundOpt(hierarchy) ==> selector.IsMatch(point)
  {
    assert OptHierarchyOfPoint(point).segments == Erased(hierarchy).segments;
    if ChoicesIgnoreKinds(selector.hops) && selector.MatchesFoundOpt(hierarchy) {
      KindErasureIsMonotone(selector, hierarchy);
    }
  }
}
