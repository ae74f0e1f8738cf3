/**
Selectors: colon-separated patterns of hops that are matched against the
hierarchy of a particle, one segment at a time.

MatchesFoundOpt follows the recursion of the code, which clones the selector
and the hierarchy and drops their heads.  MatchesAt is the same matcher on two
cursors over unchanged sequences; Refinement shows they agree.
 */
module Selectors {
  import opened Outcomes
  import opened Points

  // ---------------------------------------------------------------- kinds

  datatype Kind = Kind(base: string, sub: Option<string>, specific: Option<string>)

  datatype KindBaseSelector = AlwaysBase | NeverBase | ExactBase(base: string)

  datatype SubKindSelector = NoSub | AlwaysSub | NeverSub | ExactSub(sub: string)

  // The pattern on a specific ends in a semver requirement; it is a test here.
  datatype SpecificPattern = AlwaysSpecific | NeverSpecific | SpecificPattern(test: string -> bool)

  datatype KindSelector = KindSelector(base: KindBaseSelector, sub: SubKindSelector, specific: SpecificPattern) {
    predicate IsMatch(kind: Kind) {
      && (match base
          case AlwaysBase => true
          case NeverBase => false
          case ExactBase(base) => base == kind.base)
      && (match sub
          case NoSub | AlwaysSub => true
          case NeverSub => false
          case ExactSub(sub) => kind.sub == Some(sub))
      && (match specific
          case AlwaysSpecific => true
          case NeverSpecific => false
          case SpecificPattern(test) => kind.specific.Some? && test(kind.specific.value))
    }

    /** Decides from the selector alone whether it accepts every kind. */
    predicate AcceptsEveryKind() {
      base.AlwaysBase? && (sub.NoSub? || sub.AlwaysSub?) && specific.AlwaysSpecific?
    }
  }

  lemma AcceptsEveryKindIsExact(selector: KindSelector)
    ensures selector.AcceptsEveryKind() <==> forall kind :: selector.IsMatch(kind)
  {
    if !selector.AcceptsEveryKind() {
      var base := if selector.base.ExactBase? then selector.base.base + "!" else "";
      assert !selector.IsMatch(Kind(base, None, None));
    }
  }

  /** What a kind selector accepts: each of its three parts is open, or names what the kind has. */
  lemma KindSelectorAccepts(selector: KindSelector, x: Kind)
    ensures selector.IsMatch(x) <==>
            && (selector.base == AlwaysBase || selector.base == ExactBase(x.base))
            && (selector.sub in {NoSub, AlwaysSub} || (x.sub.Some? && selector.sub == ExactSub(x.sub.value)))
            && (selector.specific.AlwaysSpecific?
                || (selector.specific.SpecificPattern? && x.specific.Some? && selector.specific.test(x.specific.value)))
  {
  }

  /** The selectors that are made from one kind. */
  lemma ExactKindAccepts(base: string, sub: string, test: string -> bool, x: Kind)
    ensures KindSelector(ExactBase(base), ExactSub(sub), AlwaysSpecific).IsMatch(x) <==>
            x.base == base && x.sub == Some(sub)
    ensures KindSelector(ExactBase(base), NoSub, AlwaysSpecific).IsMatch(x) <==> x.base == base
    ensures KindSelector(ExactBase(base), AlwaysSub, AlwaysSpecific).IsMatch(x) <==> x.base == base
    ensures KindSelector(ExactBase(base), ExactSub(sub), SpecificPattern(test)).IsMatch(x) <==>
            x.base == base && x.sub == Some(sub) && x.specific.Some? && test(x.specific.value)
    ensures forall selector: KindSelector ::
              selector.base == NeverBase || selector.sub == NeverSub || selector.specific.NeverSpecific? ==>
              !selector.IsMatch(x)
  {
  }

  // ---------------------------------------------------------------- hops

  datatype ExactPointSeg = ExactSeg(seg: PointSeg) | ExactVersion(version: VersionText)

  datatype PointSegSelector =
    | InclusiveAny
    | InclusiveRecursive
    | Any
    | Recursive
    | Exact(exact: ExactPointSeg)
    | VersionReq(req: VersionText -> bool)
  {
    predicate IsMatch(segment: PointSeg) {
      match this
      case InclusiveAny | InclusiveRecursive | Any | Recursive => true
      case Exact(ExactSeg(pattern)) => pattern.Text() == segment.Text()
      case Exact(ExactVersion(version)) => segment.Version? && segment.version == version
      case VersionReq(req) => segment.Version? && req(segment.version)
    }

    predicate IsRecursive() {
      InclusiveRecursive? || Recursive?
    }
  }

  datatype PointKindSegOpt = PointKindSegOpt(segment: PointSeg, kind: Option<Kind>)

  datatype Hop = Hop(inclusive: bool, segment: PointSegSelector, kind: KindSelector) {
    predicate IsMatch(x: PointKindSegOpt) {
      segment.IsMatch(x.segment) && (x.kind.Some? ==> kind.IsMatch(x.kind.value))
    }

    predicate IsRecursive() {
      segment.IsRecursive()
    }
  }

  /** What the selector of a segment accepts. */
  lemma SegmentSelectorAccepts(selector: PointSegSelector, x: PointSeg)
    ensures selector in {InclusiveAny, InclusiveRecursive, Any, Recursive} ==> selector.IsMatch(x)
    ensures forall seg :: selector == Exact(ExactSeg(seg)) ==> (selector.IsMatch(x) <==> x.Text() == seg.Text())
    ensures forall version ::
              selector == Exact(ExactVersion(version)) ==> (selector.IsMatch(x) <==> x == Version(version))
    ensures selector.VersionReq? ==> (selector.IsMatch(x) <==> x.Version? && selector.req(x.version))
    ensures selector.IsRecursive() <==> selector in {InclusiveRecursive, Recursive}
  {
  }

  /** A hop takes a segment by its selector, and a kind if it is known. */
  lemma HopAccepts(hop: Hop, segment: PointSeg, kind: Kind)
    ensures hop.IsMatch(PointKindSegOpt(segment, Some(kind))) <==>
            hop.segment.IsMatch(segment) && hop.kind.IsMatch(kind)
    ensures hop.IsMatch(PointKindSegOpt(segment, None)) <==> hop.segment.IsMatch(segment)
    ensures hop.IsRecursive() <==> hop.segment in {InclusiveRecursive, Recursive}
  {
  }

  type Hierarchy = PointDef<RouteSeg, PointKindSegOpt>

  function ConsumeSegment(hierarchy: Hierarchy): Option<Hierarchy> {
    if |hierarchy.segments| <= 1 then None
    else Some(PointDef(hierarchy.route, hierarchy.segments[1..]))
  }

  predicate IsFinalSegment(hierarchy: Hierarchy) {
    |hierarchy.segments| == 1
  }

  // ---------------------------------------------------------------- selectors

  datatype Selector = Selector(always: bool, hops: seq<Hop>) {
    predicate IsRoot() {
      |hops| == 0
    }

    predicate IsFinal() {
      |hops| == 1
    }

    function Consume(): Option<Selector> {
      if |hops| == 0 then None else Some(Selector(false, hops[1..]))
    }

    /**
    The recursive matcher.  Each `.value` stands for an `expect` of the code;
    that this function is well-formed shows that none of them can fail.
     */
    predicate MatchesFoundOpt(hierarchy: Hierarchy)
      decreases |hierarchy.segments|
    {
      if hierarchy.IsRoot() && IsRoot() then true
      else if |hierarchy.segments| == 0 || |hops| == 0 then false
      else
        var hop, seg := hops[0], hierarchy.segments[0];
        if IsFinalSegment(hierarchy) && IsFinal() then hop.IsMatch(seg)
        else if IsFinalSegment(hierarchy) then hop.inclusive && hop.IsMatch(seg)
        else if hop.IsRecursive() && |hops| >= 2 then
          if hops[1].IsMatch(seg)
          then Consume().value.MatchesFoundOpt(ConsumeSegment(hierarchy).value)
          else MatchesFoundOpt(ConsumeSegment(hierarchy).value)
        else if hop.IsRecursive() then
          && hop.IsMatch(hierarchy.segments[|hierarchy.segments| - 1])
          && MatchesFoundOpt(ConsumeSegment(hierarchy).value)
        else
          hop.IsMatch(seg) && Consume().value.MatchesFoundOpt(ConsumeSegment(hierarchy).value)
    }

    /** Matching a point: kinds are unknown, and the `always` selector skips the hops. */
    predicate IsMatch(point: Point) {
      always || MatchesFoundOpt(OptHierarchyOfPoint(point))
    }
  }

  function OptHierarchyOfPoint(point: Point): Hierarchy {
    PointDef(point.route,
             seq(|point.segments|, i requires 0 <= i < |point.segments| => PointKindSegOpt(point.segments[i], None)))
  }

  // ---------------------------------------------------------------- the two-cursor matcher

  /** Hops from `h` on match segments from `s` on. */
  predicate MatchesAt(hops: seq<Hop>, segs: seq<PointKindSegOpt>, h: nat, s: nat)
    requires h <= |hops| && s <= |segs|
    decreases |segs| - s
  {
    if h == |hops| || s == |segs| then h == |hops| && s == |segs|
    else if s == |segs| - 1 then hops[h].IsMatch(segs[s]) && (h == |hops| - 1 || hops[h].inclusive)
    else StepOk(hops, segs, h, s) && MatchesAt(hops, segs, NextHop(hops, h, segs[s]), s + 1)
  }

  /** The hop to try next, after hop `h` has met a segment that is not the last one. */
  function NextHop(hops: seq<Hop>, h: nat, seg: PointKindSegOpt): (next: nat)
    requires h < |hops|
    ensures h <= next <= h + 1 && next <= |hops|
  {
    if !hops[h].IsRecursive() then h + 1
    else if h + 1 < |hops| && hops[h + 1].IsMatch(seg) then h + 1
    else h
  }

  /** What must hold for the matcher to go on past a segment that is not the last one. */
  predicate StepOk(hops: seq<Hop>, segs: seq<PointKindSegOpt>, h: nat, s: nat)
    requires h < |hops| && s < |segs|
  {
    if !hops[h].IsRecursive() then hops[h].IsMatch(segs[s])
    else h + 1 < |hops| || hops[h].IsMatch(segs[|segs| - 1])
  }

  lemma {:induction false} RefinementAt(selector: Selector, hierarchy: Hierarchy, h: nat, s: nat)
    requires h <= |selector.hops| && s <= |hierarchy.segments|
    ensures Selector(selector.always, selector.hops[h..]).MatchesFoundOpt(
              PointDef(hierarchy.route, hierarchy.segments[s..]))
            <==> MatchesAt(selector.hops, hierarchy.segments, h, s)
    ensures Selector(false, selector.hops[h..]).MatchesFoundOpt(PointDef(hierarchy.route, hierarchy.segments[s..]))
            <==> MatchesAt(selector.hops, hierarchy.segments, h, s)
    decreases |hierarchy.segments| - s
  {
    var hops, segs := selector.hops, hierarchy.segments;
    if h < |hops| && s + 1 < |segs| {
      RefinementAt(selector, hierarchy, h, s + 1);
      RefinementAt(selector, hierarchy, h + 1, s + 1);
      assert hops[h..][1..] == hops[h + 1..] && segs[s..][1..] == segs[s + 1..];
      assert segs[s..][|segs| - s - 1] == segs[|segs| - 1];
    }
  }

  /** The recursive matcher is the two-cursor matcher. */
  lemma Refinement(selector: Selector, hierarchy: Hierarchy)
    ensures selector.MatchesFoundOpt(hierarchy) <==> MatchesAt(selector.hops, hierarchy.segments, 0, 0)
  {
    RefinementAt(selector, hierarchy, 0, 0);
    assert selector.hops[0..] == selector.hops && hierarchy.segments[0..] == hierarchy.segments;
  }

  /** Only what lies beyond the cursors matters. */
  lemma {:induction false} MatchesAtSlice(hops: seq<Hop>, segs: seq<PointKindSegOpt>, h: nat, s: nat)
    requires h <= |hops| && s <= |segs|
    ensures MatchesAt(hops, segs, h, s) <==> MatchesAt(hops[h..], segs[s..], 0, 0)
  {
    RefinementAt(Selector(false, hops), PointDef(This, segs), h, s);
    Refinement(Selector(false, hops[h..]), PointDef(This, segs[s..]));
  }

  // ---------------------------------------------------------------- closed form of matching

  /** The hop cursor after the first `i` segments. */
  function CursorAfter(hops: seq<Hop>, segs: seq<PointKindSegOpt>, i: nat): (h: nat)
    requires i <= |segs|
    ensures h <= |hops|
  {
    if i == 0 then 0
    else
      var h := CursorAfter(hops, segs, i - 1);
      if h == |hops| then h else NextHop(hops, h, segs[i - 1])
  }

  /** Every step before segment `i` was possible. */
  predicate StepsOk(hops: seq<Hop>, segs: seq<PointKindSegOpt>, i: nat)
    requires i <= |segs|
  {
    forall j | 0 <= j < i :: CursorAfter(hops, segs, j) < |hops| && StepOk(hops, segs, CursorAfter(hops, segs, j), j)
  }

  /**
  The closed form of matching, for every selector: the cursor never runs off
  the hops before the last segment, each step on the way was possible, and the
  hop at the cursor matches the last segment and is either the last hop or
  inclusive.
   */
  predicate MatchesClosedForm(hops: seq<Hop>, segs: seq<PointKindSegOpt>) {
    if |segs| == 0 then |hops| == 0
    else
      var last := |segs| - 1;
      var h := CursorAfter(hops, segs, last);
      && StepsOk(hops, segs, last)
      && h < |hops|
      && hops[h].IsMatch(segs[last])
      && (h == |hops| - 1 || hops[h].inclusive)
  }

  lemma {:induction false} ClosedFormFrom(hops: seq<Hop>, segs: seq<PointKindSegOpt>, i: nat)
    requires i < |segs| && StepsOk(hops, segs, i)
    ensures MatchesAt(hops, segs, CursorAfter(hops, segs, i), i) <==> MatchesClosedForm(hops, segs)
    decreases |segs| - i
  {
    var h := CursorAfter(hops, segs, i);
    if i < |segs| - 1 {
      if h < |hops| && StepOk(hops, segs, h, i) {
        assert StepsOk(hops, segs, i + 1);
        ClosedFormFrom(hops, segs, i + 1);
        assert CursorAfter(hops, segs, i + 1) == NextHop(hops, h, segs[i]);
      } else {
        assert !StepsOk(hops, segs, |segs| - 1);
      }
    }
  }

  lemma MatchesIffClosedForm(selector: Selector, hierarchy: Hierarchy)
    ensures selector.MatchesFoundOpt(hierarchy) <==> MatchesClosedForm(selector.hops, hierarchy.segments)
  {
    Refinement(selector, hierarchy);
    if |hierarchy.segments| > 0 {
      ClosedFormFrom(selector.hops, hierarchy.segments, 0);
    }
  }

  // ---------------------------------------------------------------- no recursive hop, or only the last

  predicate PointwiseMatch(hops: seq<Hop>, segs: seq<PointKindSegOpt>, n: nat)
    requires n <= |hops| && n <= |segs|
  {
    forall i | 0 <= i < n :: hops[i].IsMatch(segs[i])
  }

  predicate NoRecursiveBefore(hops: seq<Hop>, n: nat)
    requires n <= |hops|
  {
    forall i | 0 <= i < n :: !hops[i].IsRecursive()
  }

  lemma {:induction false} PlainHopsFrom(hops: seq<Hop>, segs: seq<PointKindSegOpt>, i: nat)
    requires i < |segs| && i <= |hops| && NoRecursiveBefore(hops, |hops|)
    ensures MatchesAt(hops, segs, i, i) <==>
            && i < |hops|
            && |segs| <= |hops|
            && (forall j | i <= j < |segs| :: hops[j].IsMatch(segs[j]))
            && (|hops| == |segs| || hops[|segs| - 1].inclusive)
    decreases |segs| - i
  {
    if i < |hops| && i < |segs| - 1 {
      PlainHopsFrom(hops, segs, i + 1);
    }
  }

  /** Without recursive hops, matching is position by position. */
  lemma PlainSelectorMatches(selector: Selector, hierarchy: Hierarchy)
    requires NoRecursiveBefore(selector.hops, |selector.hops|)
    requires |selector.hops| > 0 && |hierarchy.segments| > 0
    ensures selector.MatchesFoundOpt(hierarchy) <==>
            var hops, segs := selector.hops, hierarchy.segments;
            && |segs| <= |hops|
            && PointwiseMatch(hops, segs, |segs|)
            && (|hops| == |segs| || hops[|segs| - 1].inclusive)
  {
    Refinement(selector, hierarchy);
    PlainHopsFrom(selector.hops, hierarchy.segments, 0);
  }

  lemma {:induction false} TrailingRecursiveFrom(hops: seq<Hop>, segs: seq<PointKindSegOpt>, h: nat, s: nat)
    requires 0 < |hops| && h < |hops| && s < |segs|
    requires NoRecursiveBefore(hops, |hops| - 1) && hops[|hops| - 1].IsRecursive()
    requires h == if s < |hops| - 1 then s else |hops| - 1
    ensures MatchesAt(hops, segs, h, s) <==>
            if |segs| < |hops|
            then (forall j | s <= j < |segs| :: hops[j].IsMatch(segs[j])) && hops[|segs| - 1].inclusive
            else
              && (forall j | s <= j < |hops| - 1 :: hops[j].IsMatch(segs[j]))
              && hops[|hops| - 1].IsMatch(segs[|segs| - 1])
    decreases |segs| - s
  {
    if s < |segs| - 1 {
      TrailingRecursiveFrom(hops, segs, if h < |hops| - 1 then h + 1 else h, s + 1);
    }
  }

  /** With a single, trailing recursive hop: earlier hops by position, the recursive one on the last segment. */
  lemma TrailingRecursiveMatches(selector: Selector, hierarchy: Hierarchy)
    requires 0 < |selector.hops| && 0 < |hierarchy.segments|
    requires NoRecursiveBefore(selector.hops, |selector.hops| - 1) && selector.hops[|selector.hops| - 1].IsRecursive()
    ensures selector.MatchesFoundOpt(hierarchy) <==>
            var hops, segs := selector.hops, hierarchy.segments;
            if |segs| < |hops|
            then PointwiseMatch(hops, segs, |segs|) && hops[|segs| - 1].inclusive
            else PointwiseMatch(hops, segs, |hops| - 1) && hops[|hops| - 1].IsMatch(segs[|segs| - 1])
  {
    Refinement(selector, hierarchy);
    TrailingRecursiveFrom(selector.hops, hierarchy.segments, 0, 0);
  }

  /** `**` of one base and sub kind: the last segment has them, or its kind is not known. */
  lemma RecursiveOfKindMatches(hierarchy: Hierarchy, base: string, sub: string)
    ensures Selector(false, [Hop(false, Recursive, KindSelector(ExactBase(base), ExactSub(sub), AlwaysSpecific))])
            .MatchesFoundOpt(hierarchy) <==>
            var n := |hierarchy.segments|;
            && n > 0
            && (hierarchy.segments[n - 1].kind.Some? ==>
                  && hierarchy.segments[n - 1].kind.value.base == base
                  && hierarchy.segments[n - 1].kind.value.sub == Some(sub))
  {
    if |hierarchy.segments| > 0 {
      TrailingRecursiveMatches(
        Selector(false, [Hop(false, Recursive, KindSelector(ExactBase(base), ExactSub(sub), AlwaysSpecific))]),
        hierarchy);
    }
  }

  // ---------------------------------------------------------------- a recursive hop in the middle

  /** The least i < |segs| - 1 whose segment the hop matches. */
  function FirstMatchBeforeLast(hop: Hop, segs: seq<PointKindSegOpt>): (r: Option<nat>)
    ensures r.Some? ==> r.value < |segs| - 1 && hop.IsMatch(segs[r.value])
    ensures r.Some? ==> forall i :: 0 <= i < r.value ==> !hop.IsMatch(segs[i])
    ensures r.None? ==> forall i :: 0 <= i < |segs| - 1 ==> !hop.IsMatch(segs[i])
  {
    if |segs| <= 1 then None
    else if hop.IsMatch(segs[0]) then Some(0)
    else
      match FirstMatchBeforeLast(hop, segs[1..])
      case None => assert forall i :: 0 < i < |segs| ==> segs[i] == segs[1..][i - 1]; None
      case Some(i) => assert forall j :: 0 < j < |segs| ==> segs[j] == segs[1..][j - 1]; Some(i + 1)
  }

  lemma {:induction false} MiddleRecursiveAt(hops: seq<Hop>, segs: seq<PointKindSegOpt>)
    requires |hops| >= 2 && hops[0].IsRecursive() && |segs| > 0
    ensures MatchesAt(hops, segs, 0, 0) <==>
            match FirstMatchBeforeLast(hops[1], segs)
            case Some(i) => MatchesAt(hops[1..], segs[i + 1..], 0, 0)
            case None => hops[0].inclusive && hops[0].IsMatch(segs[|segs| - 1])
  {
    if |segs| == 1 {
    } else if hops[1].IsMatch(segs[0]) {
      MatchesAtSlice(hops, segs, 1, 1);
    } else {
      MiddleRecursiveAt(hops, segs[1..]);
      MatchesAtSlice(hops, segs, 0, 1);
      assert hops[0..] == hops;
      match FirstMatchBeforeLast(hops[1], segs[1..]) {
        case Some(i) => assert segs[1..][i + 1..] == segs[i + 2..];
        case None =>
      }
    }
  }

  /**
  The exact meaning of a recursive hop that is not the last: it runs to the
  first segment, short of the last, that the next hop matches.  That segment is
  skipped, and the next hop starts over behind it.  The choice is never revised.
   */
  lemma MiddleRecursiveMatches(selector: Selector, hierarchy: Hierarchy)
    requires |selector.hops| >= 2 && selector.hops[0].IsRecursive() && |hierarchy.segments| > 0
    ensures selector.MatchesFoundOpt(hierarchy) <==>
            var hops, segs := selector.hops, hierarchy.segments;
            match FirstMatchBeforeLast(hops[1], segs)
            case Some(i) => selector.Consume().value.MatchesFoundOpt(PointDef(hierarchy.route, segs[i + 1..]))
            case None => hops[0].inclusive && hops[0].IsMatch(segs[|segs| - 1])
  {
    var hops, segs := selector.hops, hierarchy.segments;
    Refinement(selector, hierarchy);
    MiddleRecursiveAt(hops, segs);
    match FirstMatchBeforeLast(hops[1], segs) {
      case Some(i) => Refinement(selector.Consume().value, PointDef(hierarchy.route, segs[i + 1..]));
      case None =>
    }
  }

  // ---------------------------------------------------------------- plain hops in front

  lemma {:induction false} PlainPrefixFrom(hops: seq<Hop>, segs: seq<PointKindSegOpt>, i: nat, j: nat)
    requires i <= j < |hops| && i < |segs| && NoRecursiveBefore(hops, j)
    ensures MatchesAt(hops, segs, i, i) <==>
            if |segs| <= j then (forall x | i <= x < |segs| :: hops[x].IsMatch(segs[x])) && hops[|segs| - 1].inclusive
            else (forall x | i <= x < j :: hops[x].IsMatch(segs[x])) && MatchesAt(hops, segs, j, j)
    decreases j - i
  {
    if i < j && i < |segs| - 1 {
      PlainPrefixFrom(hops, segs, i + 1, j);
    }
  }

  /**
  Hops in front of the first recursive one match by position.  The rest of the
  selector is left with the rest of the hierarchy; a hierarchy that ends before
  needs an inclusive hop at its end.
   */
  lemma PlainPrefixMatches(selector: Selector, hierarchy: Hierarchy, j: nat)
    requires j < |selector.hops| && NoRecursiveBefore(selector.hops, j)
    ensures selector.MatchesFoundOpt(hierarchy) <==>
            var hops, segs := selector.hops, hierarchy.segments;
            if |segs| <= j then |segs| > 0 && PointwiseMatch(hops, segs, |segs|) && hops[|segs| - 1].inclusive
            else
              && PointwiseMatch(hops, segs, j)
              && Selector(selector.always, hops[j..]).MatchesFoundOpt(PointDef(hierarchy.route, segs[j..]))
  {
    Refinement(selector, hierarchy);
    if |hierarchy.segments| > 0 {
      PlainPrefixFrom(selector.hops, hierarchy.segments, 0, j);
    }
    if j < |hierarchy.segments| {
      RefinementAt(selector, hierarchy, j, j);
    }
  }

  /** What `**` and one plain hop behind it ask of segments. */
  predicate PairMatches(deep: Hop, next: Hop, segs: seq<PointKindSegOpt>)
    requires |segs| > 0
  {
    var last := |segs| - 1;
    if FirstMatchBeforeLast(next, segs).None? then deep.inclusive && deep.IsMatch(segs[last])
    else FirstMatchBeforeLast(next, segs) == Some(last - 1) && next.IsMatch(segs[last])
  }

  lemma PairSelectorMatches(selector: Selector, hierarchy: Hierarchy)
    requires |selector.hops| == 2 && selector.hops[0].IsRecursive() && !selector.hops[1].IsRecursive()
    requires |hierarchy.segments| > 0
    ensures selector.MatchesFoundOpt(hierarchy) <==>
            PairMatches(selector.hops[0], selector.hops[1], hierarchy.segments)
  {
    hide Selector.MatchesFoundOpt, FirstMatchBeforeLast, Hop.IsMatch;
    var hops, segs := selector.hops, hierarchy.segments;
    MiddleRecursiveMatches(selector, hierarchy);
    match FirstMatchBeforeLast(hops[1], segs) {
      case Some(i) => OneHopMatches(selector.Consume().value, PointDef(hierarchy.route, segs[i + 1..]));
      case None =>
    }
  }

  lemma OneHopMatches(selector: Selector, hierarchy: Hierarchy)
    requires |selector.hops| == 1 && !selector.hops[0].IsRecursive() && |hierarchy.segments| > 0
    ensures selector.MatchesFoundOpt(hierarchy) <==>
            |hierarchy.segments| == 1 && selector.hops[0].IsMatch(hierarchy.segments[0])
  {
    PlainSelectorMatches(selector, hierarchy);
  }

  /**
  The comment in the code says that `space.org:**:users` reaches a path that ends
  in `users`.  The code asks for more of what lies behind `space.org`: either the
  two last segments are the first that match `users`, or no segment but possibly
  the last does and the `**` is inclusive.
   */
  lemma RecursiveThenPlainMatches(selector: Selector, hierarchy: Hierarchy)
    requires |selector.hops| >= 2 && NoRecursiveBefore(selector.hops, |selector.hops| - 2)
    requires selector.hops[|selector.hops| - 2].IsRecursive() && !selector.hops[|selector.hops| - 1].IsRecursive()
    ensures selector.MatchesFoundOpt(hierarchy) <==>
            var hops, segs, j := selector.hops, hierarchy.segments, |selector.hops| - 2;
            if |segs| <= j then |segs| > 0 && PointwiseMatch(hops, segs, |segs|) && hops[|segs| - 1].inclusive
            else PointwiseMatch(hops, segs, j) && PairMatches(hops[j], hops[j + 1], segs[j..])
  {
    var hops, segs, j := selector.hops, hierarchy.segments, |selector.hops| - 2;
    PlainPrefixMatches(selector, hierarchy, j);
    if j < |segs| {
      PairSelectorMatches(Selector(selector.always, hops[j..]), PointDef(hierarchy.route, segs[j..]));
    }
  }

  const ANY_KIND := KindSelector(AlwaysBase, AlwaysSub, AlwaysSpecific)

  /** A hop that names a segment and takes any kind. */
  function Named(segment: PointSeg): Hop {
    Hop(false, Exact(ExactSeg(segment)), ANY_KIND)
  }

  /** The selector and the path of that comment: no match, whatever the kinds. */
  lemma CommentedExampleFails(hierarchy: Hierarchy)
    requires |hierarchy.segments| == 5
    requires hierarchy.segments[0].segment == Space("space.org")
    requires hierarchy.segments[1].segment == Base("many") && hierarchy.segments[2].segment == Base("silly")
    requires hierarchy.segments[3].segment == Base("dirs") && hierarchy.segments[4].segment == Base("users")
    ensures !Selector(false, [Named(Space("space.org")), Hop(false, Recursive, ANY_KIND), Named(Base("users"))])
            .MatchesFoundOpt(hierarchy)
  {
    var hops := [Named(Space("space.org")), Hop(false, Recursive, ANY_KIND), Named(Base("users"))];
    RecursiveThenPlainMatches(Selector(false, hops), hierarchy);
    assert "many"[0] == 'm' && "silly"[0] == 's' && "dirs"[0] == 'd' && "users"[0] == 'u';
    assert FirstMatchBeforeLast(hops[2], hierarchy.segments[1..]) == None;
  }

  // ---------------------------------------------------------------- erasing kinds

  function EraseKind(x: PointKindSegOpt): PointKindSegOpt {
    PointKindSegOpt(x.segment, None)
  }

  function EraseKinds(segs: seq<PointKindSegOpt>): (erased: seq<PointKindSegOpt>)
    ensures |erased| == |segs|
    ensures forall i :: 0 <= i < |segs| ==> erased[i] == EraseKind(segs[i])
  {
    seq(|segs|, i requires 0 <= i < |segs| => EraseKind(segs[i]))
  }

  function Erased(hierarchy: Hierarchy): Hierarchy {
    PointDef(hierarchy.route, EraseKinds(hierarchy.segments))
  }

  /** Every hop behind a recursive hop takes any kind, so kinds cannot move the greedy choice. */
  predicate ChoicesIgnoreKinds(hops: seq<Hop>) {
    forall i | 0 <= i < |hops| - 1 :: hops[i].IsRecursive() ==> hops[i + 1].kind.AcceptsEveryKind()
  }

  lemma {:induction false} ErasureFrom(hops: seq<Hop>, segs: seq<PointKindSegOpt>, h: nat, s: nat)
    requires h <= |hops| && s <= |segs| && ChoicesIgnoreKinds(hops)
    requires MatchesAt(hops, segs, h, s)
    ensures MatchesAt(hops, EraseKinds(segs), h, s)
    decreases |segs| - s
  {
    if h < |hops| && s < |segs| - 1 {
      var next := NextHop(hops, h, segs[s]);
      if hops[h].IsRecursive() && h + 1 < |hops| {
        AcceptsEveryKindIsExact(hops[h + 1].kind);
      }
      assert NextHop(hops, h, EraseKind(segs[s])) == next;
      ErasureFrom(hops, segs, next, s + 1);
    }
  }

  /**
  Dropping the kinds of a hierarchy keeps a match.  This covers selectors whose
  only recursive hop is the last one, and more.
   */
  lemma KindErasureIsMonotone(selector: Selector, hierarchy: Hierarchy)
    requires ChoicesIgnoreKinds(selector.hops)
    requires selector.MatchesFoundOpt(hierarchy)
    ensures selector.MatchesFoundOpt(Erased(hierarchy))
  {
    Refinement(selector, hierarchy);
    ErasureFrom(selector.hops, hierarchy.segments, 0, 0);
    Refinement(selector, Erased(hierarchy));
  }

  /** A hierarchy read from the registry: the kind of every segment is known. */
  predicate KindsKnown(hierarchy: Hierarchy) {
    forall i | 0 <= i < |hierarchy.segments| :: hierarchy.segments[i].kind.Some?
  }

  ghost predicate ErasureKeepsMatches(selector: Selector) {
    forall hierarchy: Hierarchy ::
      KindsKnown(hierarchy) && selector.MatchesFoundOpt(hierarchy) ==> selector.MatchesFoundOpt(Erased(hierarchy))
  }

  ghost predicate AcceptsNoKind(selector: KindSelector) {
    forall kind :: !selector.IsMatch(kind)
  }

  /** A segment that an exact hop matches by name. */
  function NamedBy(exact: ExactPointSeg): PointSeg {
    match exact
    case ExactSeg(seg) => seg
    case ExactVersion(version) => Version(version)
  }

  // ---------------------------------------------------------------- a recursive hop and plain hops behind it

  /** All hops but the first are plain. */
  predicate PlainBehindFirst(hops: seq<Hop>) {
    forall i | 0 < i < |hops| :: !hops[i].IsRecursive()
  }

  /** Plain hops on segments: by position, to the last hop or to an inclusive one. */
  predicate PlainMatch(hops: seq<Hop>, segs: seq<PointKindSegOpt>) {
    && 0 < |segs| <= |hops|
    && PointwiseMatch(hops, segs, |segs|)
    && (|hops| == |segs| || hops[|segs| - 1].inclusive)
  }

  lemma LeadingRecursiveMatches(selector: Selector, hierarchy: Hierarchy)
    requires |selector.hops| >= 2 && selector.hops[0].IsRecursive() && PlainBehindFirst(selector.hops)
    requires |hierarchy.segments| > 0
    ensures selector.MatchesFoundOpt(hierarchy) <==>
            var hops, segs := selector.hops, hierarchy.segments;
            match FirstMatchBeforeLast(hops[1], segs)
            case Some(i) => PlainMatch(hops[1..], segs[i + 1..])
            case None => hops[0].inclusive && hops[0].IsMatch(segs[|segs| - 1])
  {
    hide Selector.MatchesFoundOpt, FirstMatchBeforeLast, Hop.IsMatch, PlainMatch;
    var hops, segs := selector.hops, hierarchy.segments;
    MiddleRecursiveMatches(selector, hierarchy);
    match FirstMatchBeforeLast(hops[1], segs) {
      case Some(i) =>
        assert NoRecursiveBefore(hops[1..], |hops| - 1);
        PlainMatches(selector.Consume().value, PointDef(hierarchy.route, segs[i + 1..]));
      case None =>
    }
  }

  lemma PlainMatches(selector: Selector, hierarchy: Hierarchy)
    requires NoRecursiveBefore(selector.hops, |selector.hops|)
    requires |selector.hops| > 0 && |hierarchy.segments| > 0
    ensures selector.MatchesFoundOpt(hierarchy) <==> PlainMatch(selector.hops, hierarchy.segments)
  {
    PlainSelectorMatches(selector, hierarchy);
  }

  /** The hop matches some segment of some kind. */
  ghost predicate Satisfiable(hop: Hop) {
    exists segment, kind :: hop.IsMatch(PointKindSegOpt(segment, Some(kind)))
  }

  /** Segments of known kinds that the hops match one by one. */
  ghost function Witness(hops: seq<Hop>): (segs: seq<PointKindSegOpt>)
    requires forall i :: 0 <= i < |hops| ==> Satisfiable(hops[i])
    ensures |segs| == |hops|
    ensures forall i :: 0 <= i < |hops| ==> hops[i].IsMatch(segs[i]) && segs[i].kind.Some?
  {
    if |hops| == 0 then []
    else
      assert Satisfiable(hops[0]);
      var segment, kind :| hops[0].IsMatch(PointKindSegOpt(segment, Some(kind)));
      [PointKindSegOpt(segment, Some(kind))] + Witness(hops[1..])
  }

  /** Some segments of known kinds match the first `n` hops and end the selector there. */
  ghost predicate RunMatches(hops: seq<Hop>, n: nat) {
    && 0 < n <= |hops|
    && (forall i :: 0 <= i < n ==> Satisfiable(hops[i]))
    && (n == |hops| || hops[n - 1].inclusive)
  }

  function Copies(seg: PointKindSegOpt, n: nat): (segs: seq<PointKindSegOpt>)
    ensures |segs| == n && forall i :: 0 <= i < n ==> segs[i] == seg
  {
    seq(n, _ => seg)
  }

  lemma FirstMatchIs(hop: Hop, segs: seq<PointKindSegOpt>, i: nat)
    requires i < |segs| - 1 && hop.IsMatch(segs[i])
    requires forall j :: 0 <= j < i ==> !hop.IsMatch(segs[j])
    ensures FirstMatchBeforeLast(hop, segs) == Some(i)
  {
  }

  /** Without kinds the choice falls on the first segment, and too many are left behind it. */
  lemma ErasedStopsEarly(selector: Selector, hierarchy: Hierarchy)
    requires |selector.hops| >= 2 && selector.hops[0].IsRecursive() && PlainBehindFirst(selector.hops)
    requires |hierarchy.segments| > |selector.hops| && selector.hops[1].segment.IsMatch(hierarchy.segments[0].segment)
    ensures !selector.MatchesFoundOpt(Erased(hierarchy))
  {
    hide Selector.MatchesFoundOpt, FirstMatchBeforeLast;
    FirstMatchIs(selector.hops[1], EraseKinds(hierarchy.segments), 0);
    LeadingRecursiveMatches(selector, Erased(hierarchy));
  }

  ghost predicate LostByErasure(selector: Selector, hierarchy: Hierarchy) {
    && KindsKnown(hierarchy)
    && selector.MatchesFoundOpt(hierarchy)
    && !selector.MatchesFoundOpt(Erased(hierarchy))
  }

  lemma LostMeansNotKept(selector: Selector, hierarchy: Hierarchy)
    requires LostByErasure(selector, hierarchy)
    ensures !ErasureKeepsMatches(selector)
  {
  }

  /** With the kinds known `**` passes over segments of a bad kind; without them it stops at the first. */
  lemma ErasureMovesChoice(selector: Selector, segment: PointSeg, bad: Kind, n: nat)
    requires |selector.hops| >= 2 && selector.hops[0].IsRecursive() && PlainBehindFirst(selector.hops)
    requires selector.hops[1].segment.IsMatch(segment) && !selector.hops[1].kind.IsMatch(bad)
    requires RunMatches(selector.hops[1..], n)
    ensures !ErasureKeepsMatches(selector)
  {
    var rest, badSeg := selector.hops[1..], PointKindSegOpt(segment, Some(bad));
    var run, skipped := Witness(rest[..n]), Copies(badSeg, |selector.hops|);
    assert rest[..n][0] == selector.hops[1];
    assert selector.hops[1].IsMatch(run[0]) && !selector.hops[1].IsMatch(badSeg);
    var hierarchy := PointDef(This, skipped + ([run[0]] + run));
    hide Selector.MatchesFoundOpt, Witness, Satisfiable, Copies, Hop.IsMatch, PlainMatch, ErasureKeepsMatches;
    WitnessMatches(rest, n, run);
    SkippedMatches(selector, skipped, run);
    assert hierarchy.segments[0] == badSeg;
    ErasedStopsEarly(selector, hierarchy);
    assert KindsKnown(hierarchy);
    LostMeansNotKept(selector, hierarchy);
  }

  lemma WitnessMatches(hops: seq<Hop>, n: nat, run: seq<PointKindSegOpt>)
    requires RunMatches(hops, n) && run == Witness(hops[..n])
    ensures PlainMatch(hops, run)
  {
    hide Witness, Satisfiable, Hop.IsMatch;
    assert forall i :: 0 <= i < n ==> hops[..n][i] == hops[i];
  }

  /** Segments the next hop does not match, one it does, and a run of the hops behind `**`. */
  lemma SkippedMatches(selector: Selector, skipped: seq<PointKindSegOpt>, run: seq<PointKindSegOpt>)
    requires |selector.hops| >= 2 && selector.hops[0].IsRecursive() && PlainBehindFirst(selector.hops)
    requires forall i :: 0 <= i < |skipped| ==> !selector.hops[1].IsMatch(skipped[i])
    requires |run| > 0 && selector.hops[1].IsMatch(run[0]) && PlainMatch(selector.hops[1..], run)
    ensures selector.MatchesFoundOpt(PointDef(This, skipped + ([run[0]] + run)))
  {
    hide Selector.MatchesFoundOpt, FirstMatchBeforeLast, Hop.IsMatch, PlainMatch;
    var segs := skipped + ([run[0]] + run);
    assert segs[|skipped|] == run[0] && segs[|skipped| + 1..] == run;
    assert forall j :: 0 <= j < |skipped| ==> segs[j] == skipped[j];
    FirstMatchIs(selector.hops[1], segs, |skipped|);
    LeadingRecursiveMatches(selector, PointDef(This, segs));
  }

  /** With the kinds known the inclusive `**` runs to the end; without them it stops at the first segment. */
  lemma ErasureDefeatsInclusive(selector: Selector, segment: PointSeg, bad: Kind, good: Kind)
    requires |selector.hops| >= 2 && selector.hops[0].IsRecursive() && PlainBehindFirst(selector.hops)
    requires selector.hops[1].segment.IsMatch(segment) && !selector.hops[1].kind.IsMatch(bad)
    requires selector.hops[0].inclusive && selector.hops[0].kind.IsMatch(good)
    ensures !ErasureKeepsMatches(selector)
  {
    var badSeg := PointKindSegOpt(segment, Some(bad));
    var segs := Copies(badSeg, |selector.hops|) + [PointKindSegOpt(segment, Some(good))];
    var hierarchy := PointDef(This, segs);
    assert FirstMatchBeforeLast(selector.hops[1], segs) == None;
    LeadingRecursiveMatches(selector, hierarchy);
    ErasedStopsEarly(selector, hierarchy);
    LostMeansNotKept(selector, hierarchy);
  }

  /** Two recursive hops: without kinds they match every hierarchy of two segments or more. */
  lemma ErasureOfTwoRecursives(selector: Selector, hierarchy: Hierarchy)
    requires |selector.hops| == 2 && selector.hops[0].IsRecursive() && selector.hops[1].IsRecursive()
    requires selector.MatchesFoundOpt(hierarchy)
    ensures selector.MatchesFoundOpt(Erased(hierarchy))
  {
    var segs := hierarchy.segments;
    if |segs| > 0 {
      MiddleRecursiveMatches(selector, hierarchy);
      MiddleRecursiveMatches(selector, Erased(hierarchy));
      if |segs| > 1 {
        assert FirstMatchBeforeLast(selector.hops[1], EraseKinds(segs)) == Some(0);
        var rest := PointDef(hierarchy.route, EraseKinds(segs)[1..]);
        TrailingRecursiveMatches(selector.Consume().value, rest);
      }
    }
  }

  /** The selector of segments matches some segment; only a version requirement can fail to. */
  ghost predicate MatchesSome(segment: PointSegSelector) {
    exists seg :: segment.IsMatch(seg)
  }

  /** `**` and the hops behind it match no hierarchy with known kinds. */
  ghost predicate NothingKnownMatches(deep: Hop, rest: seq<Hop>) {
    (forall n :: !RunMatches(rest, n)) && (deep.inclusive ==> AcceptsNoKind(deep.kind))
  }

  /** When erasing kinds cannot take a match from `**` and the hops behind it. */
  ghost predicate TailKeepsMatches(deep: Hop, rest: seq<Hop>)
    requires |rest| > 0
  {
    || rest[0].IsRecursive()
    || rest[0].kind.AcceptsEveryKind()
    || !MatchesSome(rest[0].segment)
    || NothingKnownMatches(deep, rest)
  }

  lemma {:induction false} NoneBeforeLast(hop: Hop, segs: seq<PointKindSegOpt>)
    requires forall i :: 0 <= i < |segs| ==> !hop.IsMatch(segs[i])
    ensures FirstMatchBeforeLast(hop, segs) == None
  {
  }

  /** Segments of known kinds that the plain hops match are such a run. */
  lemma PlainMatchIsRun(hops: seq<Hop>, segs: seq<PointKindSegOpt>)
    requires PlainMatch(hops, segs) && forall i :: 0 <= i < |segs| ==> segs[i].kind.Some?
    ensures RunMatches(hops, |segs|)
  {
    forall i | 0 <= i < |segs|
      ensures Satisfiable(hops[i])
    {
      assert hops[i].IsMatch(PointKindSegOpt(segs[i].segment, Some(segs[i].kind.value)));
    }
  }

  lemma NothingKnown(selector: Selector, hierarchy: Hierarchy)
    requires |selector.hops| >= 2 && selector.hops[0].IsRecursive() && PlainBehindFirst(selector.hops)
    requires NothingKnownMatches(selector.hops[0], selector.hops[1..]) && KindsKnown(hierarchy)
    ensures !selector.MatchesFoundOpt(hierarchy)
  {
    hide FirstMatchBeforeLast, RunMatches;
    var hops, segs := selector.hops, hierarchy.segments;
    if |segs| > 0 {
      LeadingRecursiveMatches(selector, hierarchy);
      hide Selector.MatchesFoundOpt;
      match FirstMatchBeforeLast(hops[1], segs) {
        case Some(i) =>
          if PlainMatch(hops[1..], segs[i + 1..]) {
            PlainMatchIsRun(hops[1..], segs[i + 1..]);
          }
        case None => assert segs[|segs| - 1].kind.Some?;
      }
    }
  }

  lemma TailKeeps(selector: Selector, hierarchy: Hierarchy)
    requires |selector.hops| >= 2 && selector.hops[0].IsRecursive()
    requires |selector.hops| == 2 || PlainBehindFirst(selector.hops)
    requires TailKeepsMatches(selector.hops[0], selector.hops[1..])
    requires KindsKnown(hierarchy) && selector.MatchesFoundOpt(hierarchy)
    ensures selector.MatchesFoundOpt(Erased(hierarchy))
  {
    hide RunMatches;
    var next := selector.hops[1];
    if next.IsRecursive() {
      ErasureOfTwoRecursives(selector, hierarchy);
    } else if next.kind.AcceptsEveryKind() {
      KindErasureIsMonotone(selector, hierarchy);
    } else if MatchesSome(next.segment) {
      NothingKnown(selector, hierarchy);
    } else if |hierarchy.segments| > 0 {
      LeadingRecursiveMatches(selector, hierarchy);
      LeadingRecursiveMatches(selector, Erased(hierarchy));
      NoneBeforeLast(next, hierarchy.segments);
      NoneBeforeLast(next, EraseKinds(hierarchy.segments));
    }
  }

  /** For `**` with plain hops behind it, or any one hop: exactly when erasure keeps every match. */
  lemma ErasureOfTail(selector: Selector)
    requires |selector.hops| >= 2 && selector.hops[0].IsRecursive()
    requires |selector.hops| == 2 || PlainBehindFirst(selector.hops)
    ensures ErasureKeepsMatches(selector) <==> TailKeepsMatches(selector.hops[0], selector.hops[1..])
  {
    var deep, next, rest := selector.hops[0], selector.hops[1], selector.hops[1..];
    if TailKeepsMatches(deep, rest) {
      forall hierarchy: Hierarchy | KindsKnown(hierarchy) && selector.MatchesFoundOpt(hierarchy)
        ensures selector.MatchesFoundOpt(Erased(hierarchy))
      {
        TailKeeps(selector, hierarchy);
      }
    } else {
      hide RunMatches, ErasureKeepsMatches;
      AcceptsEveryKindIsExact(next.kind);
      var segment :| next.segment.IsMatch(segment);
      var bad :| !next.kind.IsMatch(bad);
      if deep.inclusive && !AcceptsNoKind(deep.kind) {
        var good :| deep.kind.IsMatch(good);
        ErasureDefeatsInclusive(selector, segment, bad, good);
      } else {
        var n :| RunMatches(rest, n);
        ErasureMovesChoice(selector, segment, bad, n);
      }
    }
  }

  // ---------------------------------------------------------------- erasing kinds behind plain hops

  lemma PrefixKeeps(selector: Selector, j: nat, hierarchy: Hierarchy)
    requires j < |selector.hops| && NoRecursiveBefore(selector.hops, j)
    requires (exists i :: 0 <= i < j && !Satisfiable(selector.hops[i]))
             || ErasureKeepsMatches(Selector(selector.always, selector.hops[j..]))
    requires KindsKnown(hierarchy) && selector.MatchesFoundOpt(hierarchy)
    ensures selector.MatchesFoundOpt(Erased(hierarchy))
  {
    hide Selector.MatchesFoundOpt;
    var hops, segs := selector.hops, hierarchy.segments;
    PlainPrefixMatches(selector, hierarchy, j);
    PlainPrefixMatches(selector, Erased(hierarchy), j);
    if j < |segs| {
      forall i | 0 <= i < j
        ensures Satisfiable(hops[i])
      {
        assert hops[i].IsMatch(PointKindSegOpt(segs[i].segment, Some(segs[i].kind.value)));
      }
      var rest := PointDef(hierarchy.route, segs[j..]);
      assert KindsKnown(rest);
      assert EraseKinds(segs)[j..] == EraseKinds(segs[j..]);
    }
  }

  lemma PrefixFails(selector: Selector, j: nat, rest: Hierarchy)
    requires j < |selector.hops| && NoRecursiveBefore(selector.hops, j)
    requires forall i :: 0 <= i < j ==> Satisfiable(selector.hops[i])
    requires LostByErasure(Selector(selector.always, selector.hops[j..]), rest)
    ensures !ErasureKeepsMatches(selector)
  {
    var tail := Selector(selector.always, selector.hops[j..]);
    var front := Witness(selector.hops[..j]);
    var segs := front + rest.segments;
    var whole := PointDef(rest.route, segs);
    MatchesNotEmpty(tail, rest);
    hide Selector.MatchesFoundOpt, Witness, Satisfiable, Hop.IsMatch, NoRecursiveBefore, ErasureKeepsMatches;
    assert PointwiseMatch(selector.hops, segs, j) by {
      assert forall i :: 0 <= i < j ==> segs[i] == front[i] && selector.hops[..j][i] == selector.hops[i];
    }
    assert KindsKnown(whole);
    hide KindsKnown;
    assert selector.MatchesFoundOpt(whole) by {
      assert segs[j..] == rest.segments;
      PlainPrefixMatches(selector, whole, j);
    }
    assert !selector.MatchesFoundOpt(Erased(whole)) by {
      assert EraseKinds(segs)[j..] == EraseKinds(rest.segments);
      PlainPrefixMatches(selector, Erased(whole), j);
    }
    LostMeansNotKept(selector, whole);
  }

  lemma MatchesNotEmpty(selector: Selector, hierarchy: Hierarchy)
    requires |selector.hops| > 0 && selector.MatchesFoundOpt(hierarchy)
    ensures |hierarchy.segments| > 0
  {
  }

  /** Plain hops in front change nothing about erasure, unless one of them can match no segment at all. */
  lemma ErasureBehindPlainHops(selector: Selector, j: nat)
    requires j < |selector.hops| && NoRecursiveBefore(selector.hops, j)
    ensures ErasureKeepsMatches(selector) <==>
            || (exists i :: 0 <= i < j && !Satisfiable(selector.hops[i]))
            || ErasureKeepsMatches(Selector(selector.always, selector.hops[j..]))
  {
    var tail := Selector(selector.always, selector.hops[j..]);
    if (exists i :: 0 <= i < j && !Satisfiable(selector.hops[i])) || ErasureKeepsMatches(tail) {
      forall hierarchy: Hierarchy | KindsKnown(hierarchy) && selector.MatchesFoundOpt(hierarchy)
        ensures selector.MatchesFoundOpt(Erased(hierarchy))
      {
        PrefixKeeps(selector, j, hierarchy);
      }
    } else {
      var rest: Hierarchy :|
        KindsKnown(rest) && tail.MatchesFoundOpt(rest) && !tail.MatchesFoundOpt(Erased(rest));
      PrefixFails(selector, j, rest);
    }
  }

  /**
  For every selector with one recursive hop: erasure keeps every match exactly
  when that hop is the last, a plain hop in front matches nothing, or the hops
  from the recursive one on keep their matches.
   */
  lemma ErasureBehindMiddleRecursive(selector: Selector, j: nat)
    requires j < |selector.hops| && NoRecursiveBefore(selector.hops, j) && selector.hops[j].IsRecursive()
    requires |selector.hops| <= j + 2 || PlainBehindFirst(selector.hops[j..])
    ensures ErasureKeepsMatches(selector) <==>
            || j == |selector.hops| - 1
            || (exists i :: 0 <= i < j && !Satisfiable(selector.hops[i]))
            || TailKeepsMatches(selector.hops[j], selector.hops[j + 1..])
  {
    if j == |selector.hops| - 1 {
      ErasureWithoutChoices(selector);
    } else {
      ErasureBehindPlainHops(selector, j);
      assert selector.hops[j..][1..] == selector.hops[j + 1..];
      ErasureOfTail(Selector(selector.always, selector.hops[j..]));
    }
  }

  /** Where choices ignore kinds, in particular without recursive hops, erasure keeps every match. */
  lemma ErasureWithoutChoices(selector: Selector)
    requires ChoicesIgnoreKinds(selector.hops)
    ensures ErasureKeepsMatches(selector)
  {
    forall hierarchy: Hierarchy | selector.MatchesFoundOpt(hierarchy)
      ensures selector.MatchesFoundOpt(Erased(hierarchy))
    {
      KindErasureIsMonotone(selector, hierarchy);
    }
  }
}
