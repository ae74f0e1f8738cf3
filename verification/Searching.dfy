/**
Searching the registry: which particles a select finds.

The registry is searched from the query root downwards, one hop a level.  A row
is fetched by the printed form of its parent and by what the database can test
of the hop; what has been fetched while hops were left is then matched against
the whole selector.  Rows are a map from the segments of local points to kinds.
 */
module Searching {
  import opened Outcomes
  import opened Points
  import opened PointPrinter
  import opened Selectors
  import opened SelectorQuery

  type Path = seq<PointSeg>

  type Tree = map<Path, Kind>

  // What the where clause lets through of a pattern on specifics.
  type Coarse = (SpecificPattern, Option<string>) -> bool

  function Local(path: Path): Point {
    PointDef(This, path)
  }

  function Up(path: Path): Path
    requires |path| > 0
  {
    path[..|path| - 1]
  }

  function Last(path: Path): PointSeg
    requires |path| > 0
  {
    path[|path| - 1]
  }

  /** Registered particles: well-formed, none of them the root or a space of that name, each below its parent. */
  ghost predicate Registered(tree: Tree, isVersion: string -> bool) {
    forall path :: path in tree ==>
      && |path| > 0 && WellFormed(Local(path), isVersion) && path != [Space(ROOT_TEXT)]
      && (|path| > 1 ==> Up(path) in tree)
  }

  /** The hierarchy of a registered point: the kind of every segment is known. */
  function HierarchyIn(tree: Tree, path: Path): Hierarchy {
    PointDef(This, seq(|path|, i requires 0 <= i < |path| =>
      PointKindSegOpt(path[i], if path[..i + 1] in tree then Some(tree[path[..i + 1]]) else None)))
  }

  /** The where clause that is built from a hop: text and kind as far as the database tests them. */
  predicate Clause(hop: Hop, segment: PointSeg, kind: Kind, coarse: Coarse) {
    && (hop.segment.Exact? ==> NamedBy(hop.segment.exact).Text() == segment.Text())
    && (hop.kind.base.ExactBase? ==>
          && hop.kind.base.base == kind.base
          && (hop.kind.sub.ExactSub? ==> kind.sub == Some(hop.kind.sub.sub)))
    && coarse(hop.kind.specific, kind.specific)
  }

  /** The where clause lets through all that the pattern on specifics matches. */
  ghost predicate LetsThrough(coarse: Coarse) {
    forall pattern: SpecificPattern, specific: Option<string> ::
      (match pattern
       case AlwaysSpecific => true
       case NeverSpecific => false
       case SpecificPattern(test) => specific.Some? && test(specific.value))
      ==> coarse(pattern, specific)
  }

  predicate ClauseAt(hops: seq<Hop>, tree: Tree, path: Path, coarse: Coarse)
    requires |path| > 0 && path in tree
  {
    hops != [] ==> Clause(hops[0], Last(path), tree[path], coarse)
  }

  /** The hops for the next level: only a recursive hop that is not inclusive stays. */
  function Rest(hops: seq<Hop>): seq<Hop> {
    if hops == [] then [] else if hops[0].segment.Recursive? then hops else hops[1..]
  }

  // ---------------------------------------------------------------- what is reached

  /** The search goes down from `at` to the path: hops are left on the way, and every level passes its clause. */
  predicate Reaches(tree: Tree, coarse: Coarse, at: Path, hops: seq<Hop>, path: Path)
    decreases |path| - |at|
  {
    && at < path
    && var child := path[..|at| + 1];
    && child in tree && ClauseAt(hops, tree, child, coarse)
    && (child == path || (hops != [] && Reaches(tree, coarse, child, Rest(hops), path)))
  }

  /** The hops left `n` levels down. */
  function HopsAt(hops: seq<Hop>, n: nat): seq<Hop>
    decreases n
  {
    if n == 0 then hops else HopsAt(Rest(hops), n - 1)
  }

  function HopsFor(at: Path, hops: seq<Hop>, path: Path): seq<Hop>
    requires |at| < |path|
  {
    HopsAt(hops, |path| - |at| - 1)
  }

  /** Where the hops have run out nothing is matched any more. */
  predicate Reported(tree: Tree, coarse: Coarse, pattern: Selector, at: Path, hops: seq<Hop>, path: Path) {
    && Reaches(tree, coarse, at, hops, path)
    && (HopsFor(at, hops, path) == [] || pattern.MatchesFoundOpt(HierarchyIn(tree, path)))
  }

  /** A filesystem root cannot be pushed onto the point to search below it. */
  predicate Blocks(tree: Tree, coarse: Coarse, at: Path, hops: seq<Hop>, path: Path) {
    Reaches(tree, coarse, at, hops, path) && HopsFor(at, hops, path) != [] && Last(path).FsRootDir?
  }

  /** Neither the point nor the search below it is in the way. */
  ghost predicate Clear(tree: Tree, coarse: Coarse, at: Path, hops: seq<Hop>) {
    |at| > 0 && !Last(at).FsRootDir? && forall path :: !Blocks(tree, coarse, at, hops, path)
  }

  /** The point to search below prints like the registered one. */
  ghost predicate StandsFor(point: Point, at: Path) {
    && point.route == This
    && |point.segments| == |at|
    && SegmentsText(point.segments) == SegmentsText(at)
    && (HasFilesystem(point) <==> FsRootDir in at)
  }

  lemma ChildrenByText(tree: Tree, isVersion: string -> bool, point: Point, at: Path, path: Path)
    requires Registered(tree, isVersion) && StandsFor(point, at) && (at == [] || at in tree) && path in tree
    ensures Display(Local(Up(path))) == Display(point) <==> |path| == |at| + 1 && at < path
  {
    hide WellFormed, Postfix, SegmentsText;
    var up := Up(path);
    RegisteredParents(tree, isVersion, path);
    if at == [] {
      RootIsWellFormed(isVersion);
    }
    LocalDisplay(Local(up));
    LocalDisplay(Local(at));
    LocalDisplay(point);
    hide Display, Registered;
    UniqueReadability(Local(up), Local(at), isVersion);
    assert up == at ==> at < path;
  }

  lemma RootIsWellFormed(isVersion: string -> bool)
    ensures WellFormed(Local([]), isVersion)
  {
  }

  lemma RegisteredParents(tree: Tree, isVersion: string -> bool, path: Path)
    requires Registered(tree, isVersion) && path in tree
    ensures |path| > 0 && WellFormed(Local(Up(path)), isVersion) && !LoneRootSpace(Local(Up(path)))
  {
  }

  lemma LocalDisplay(p: Point)
    requires p.route == This
    ensures Display(p) == Postfix(p) == SegmentsText(p.segments)
  {
  }

  lemma PushStandsFor(point: Point, at: Path, segment: PointSeg)
    requires StandsFor(point, at)
    requires PushSegment(point, segment).Ok?
    ensures StandsFor(PushSegment(point, segment).value, at + [segment])
  {
    var longer := point.segments + [segment];
    if |at| == 0 {
      assert point.segments == [] && longer == [segment] && at + [segment] == [segment];
    } else {
      SegmentsTextAppend(point.segments, [segment]);
      SegmentsTextAppend(at, [segment]);
    }
    assert FsRootDir in longer <==> FsRootDir in point.segments || segment.FsRootDir?;
    assert FsRootDir in at + [segment] <==> FsRootDir in at || segment.FsRootDir?;
    PushThenPop(point, segment);
  }

  /** Directories and files lie below a filesystem root. */
  lemma {:induction false} FilesBelowRoot(tail: Path, isVersion: string -> bool)
    requires WellFormedTail(tail, isVersion) && |tail| > 0 && (Last(tail).Dir? || Last(tail).File?)
    ensures FsRootDir in Up(tail)
  {
    if !tail[0].FsRootDir? {
      FilesBelowRoot(tail[1..], isVersion);
      assert Up(tail) == [tail[0]] + Up(tail[1..]);
    } else {
      assert Up(tail)[0] == FsRootDir;
    }
  }

  lemma FilesystemPart(path: Path, at: Path, isVersion: string -> bool)
    requires |path| > 0 && WellFormed(Local(path), isVersion) && path == at + [Last(path)]
    ensures Last(path).Dir? || Last(path).File? ==> FsRootDir in at
    ensures Last(path).FsRootDir? ==> FsRootDir !in at
  {
    assert Up(path) == at;
    if Last(path).Dir? || Last(path).File? {
      FilesBelowRoot(path[1..], isVersion);
      assert Up(path[1..]) == at[1..];
    } else if Last(path).FsRootDir? {
      NoSecondRootDir(path, isVersion);
    }
  }

  lemma PushFailsOnRootDir(tree: Tree, isVersion: string -> bool, point: Point, at: Path, path: Path)
    requires Registered(tree, isVersion) && StandsFor(point, at) && path in tree && path == at + [Last(path)]
    ensures PushSegment(point, Last(path)).Err? <==> Last(path).FsRootDir?
  {
    FilesystemPart(path, at, isVersion);
    hide Registered, WellFormed, SegmentsText;
    StandsForFilesystem(point, at);
    hide StandsFor;
  }

  lemma StandsForFilesystem(point: Point, at: Path)
    requires StandsFor(point, at)
    ensures HasFilesystem(point) <==> FsRootDir in at
  {
  }

  lemma NoSecondRootDir(path: Path, isVersion: string -> bool)
    requires |path| > 0 && WellFormed(Local(path), isVersion) && Last(path).FsRootDir?
    ensures FsRootDir !in Up(path)
  {
    NoSecondInTail(path[1..], isVersion);
    assert Up(path) == [path[0]] + Up(path[1..]);
  }

  lemma {:induction false} NoSecondInTail(tail: Path, isVersion: string -> bool)
    requires WellFormedTail(tail, isVersion) && |tail| > 0 && Last(tail).FsRootDir?
    ensures FsRootDir !in Up(tail)
  {
    if tail[0].FsRootDir? {
      if |tail| > 1 {
        assert Last(tail) == tail[1..][|tail| - 2];
        FilesTextIsTail(tail[1..]);
      }
    } else {
      NoSecondInTail(tail[1..], isVersion);
      assert Up(tail) == [tail[0]] + Up(tail[1..]);
    }
  }

  // ---------------------------------------------------------------- the search

  lemma HierarchyPush(tree: Tree, at: Path, path: Path)
    requires |path| == |at| + 1 && at < path && path in tree
    ensures HierarchyIn(tree, path) ==
            PointDef(This, HierarchyIn(tree, at).segments + [PointKindSegOpt(Last(path), Some(tree[path]))])
  {
    var longer := HierarchyIn(tree, at).segments + [PointKindSegOpt(Last(path), Some(tree[path]))];
    assert path[..|path|] == path;
    forall i | 0 <= i < |path|
      ensures HierarchyIn(tree, path).segments[i] == longer[i]
    {
      if i < |at| {
        assert path[..i + 1] == at[..i + 1];
      }
    }
    assert HierarchyIn(tree, path).segments == longer;
  }

  /** What is reached below a child is reached below its parent, and nothing else is but the child. */
  lemma ReachesThrough(tree: Tree, coarse: Coarse, at: Path, hops: seq<Hop>, path: Path)
    requires hops != [] && at < path && path != path[..|at| + 1]
    ensures var child := path[..|at| + 1];
            && (Reaches(tree, coarse, at, hops, path) <==>
                  && child in tree && ClauseAt(hops, tree, child, coarse)
                  && Reaches(tree, coarse, child, Rest(hops), path))
            && HopsFor(at, hops, path) == HopsFor(child, Rest(hops), path)
  {
  }

  lemma ReachesChild(tree: Tree, coarse: Coarse, at: Path, hops: seq<Hop>, path: Path)
    requires at < path && |path| == |at| + 1
    ensures Reaches(tree, coarse, at, hops, path) <==> path in tree && ClauseAt(hops, tree, path, coarse)
    ensures HopsFor(at, hops, path) == hops
  {
    assert path[..|at| + 1] == path;
  }

  lemma ReachesOnlyChildren(tree: Tree, coarse: Coarse, at: Path, path: Path)
    requires Reaches(tree, coarse, at, [], path)
    ensures |path| == |at| + 1
  {
  }

  ghost function Below(tree: Tree, at: Path): set<Path> {
    set path | path in tree && at < path
  }

  /** The search below one point. */
  method SubSelect(tree: Tree, coarse: Coarse, pattern: Selector, point: Point, hops: seq<Hop>, hierarchy: Hierarchy,
                   ghost at: Path, ghost isVersion: string -> bool)
    returns (r: Result<set<Path>, PointError>)
    requires Registered(tree, isVersion) && StandsFor(point, at) && (at == [] || at in tree)
    requires hierarchy == HierarchyIn(tree, at)
    ensures r.Ok? ==> forall path :: path in r.value <==> Reported(tree, coarse, pattern, at, hops, path)
    ensures r.Err? <==> exists path :: Blocks(tree, coarse, at, hops, path)
    ensures r.Ok? ==> forall path :: path in r.value <==> at < path && RowsFit(tree, coarse, pattern, at, hops, path)
    ensures r.Err? <==>
            exists path :: at < path && RowsPass(tree, coarse, at, hops, path) && Last(path) == FsRootDir
                           && Least(|path| - |at| - 1, StaysAt(hops)) < |hops|
    decreases Below(tree, at)
  {
    RowsAreReported(tree, coarse, pattern, at, hops);
    hide RowsFit, RowsPass;
    hide Registered, StandsFor, Reaches, HopsFor, Display, ClauseAt, Selector.MatchesFoundOpt, HierarchyIn, PushSegment,
      Reported, Blocks, AreFetched, FoundBelow, Below;
    var matching := set path | path in tree && |path| > 0 && Display(Local(Up(path))) == Display(point)
                               && ClauseAt(hops, tree, path, coarse);
    Fetched(tree, coarse, point, hops, at, isVersion, matching);
    if hops == [] {
      NoHopsLeft(tree, coarse, pattern, at, matching);
      return Ok(matching);
    }
    var found: set<Path> := {};
    var todo := matching;
    assert matching - todo == {};
    NothingBelow(tree, coarse, pattern, hops);
    while todo != {}
      invariant todo <= matching
      invariant FoundBelow(tree, coarse, pattern, hops, matching - todo, found)
      decreases todo
    {
      var stub :| stub in todo;
      FetchedIsChild(tree, coarse, at, hops, matching, stub);
      PushFailsOnRootDir(tree, isVersion, point, at, stub);
      var pushed := PushSegment(point, Last(stub));
      if pushed.Err? {
        ChildBlocks(tree, coarse, at, hops, stub);
        return Err(pushed.error);
      }
      PushStandsFor(point, at, Last(stub));
      HierarchyPush(tree, at, stub);
      HierarchyRoute(tree, at);
      var path := PointDef(hierarchy.route, hierarchy.segments + [PointKindSegOpt(Last(stub), Some(tree[stub]))]);
      var more := SubSelect(tree, coarse, pattern, pushed.value, Rest(hops), path, stub, isVersion);
      if more.Err? {
        BlocksThrough(tree, coarse, at, hops, stub);
        return more;
      }
      OneMoreChild(tree, coarse, pattern, hops, matching - todo, found, stub, more.value);
      assert matching - (todo - {stub}) == (matching - todo) + {stub};
      found, todo := found + more.value, todo - {stub};
    }
    assert matching - todo == matching;
    var kept := set path | path in matching
                && pattern.MatchesFoundOpt(
                     PointDef(hierarchy.route, hierarchy.segments + [PointKindSegOpt(Last(path), Some(tree[path]))]));
    KeptAreReported(tree, coarse, pattern, at, hops, hierarchy, matching, kept, found);
    NoneBlocks(tree, coarse, pattern, at, hops, matching, found);
    return Ok(kept + found);
  }

  /** What the searches below some children have found; none of them has failed. */
  ghost predicate FoundBelow(tree: Tree, coarse: Coarse, pattern: Selector, hops: seq<Hop>, done: set<Path>,
                             found: set<Path>) {
    && (forall child :: child in done ==> Clear(tree, coarse, child, Rest(hops)))
    && (forall path :: path in found <==>
          exists child :: child in done && Reported(tree, coarse, pattern, child, Rest(hops), path))
  }

  lemma NothingBelow(tree: Tree, coarse: Coarse, pattern: Selector, hops: seq<Hop>)
    ensures FoundBelow(tree, coarse, pattern, hops, {}, {})
  {
  }

  lemma OneMoreChild(tree: Tree, coarse: Coarse, pattern: Selector, hops: seq<Hop>, done: set<Path>, found: set<Path>,
                     child: Path, more: set<Path>)
    requires FoundBelow(tree, coarse, pattern, hops, done, found)
    requires |child| > 0 && !Last(child).FsRootDir?
    requires forall path :: path in more <==> Reported(tree, coarse, pattern, child, Rest(hops), path)
    requires forall path :: !Blocks(tree, coarse, child, Rest(hops), path)
    ensures FoundBelow(tree, coarse, pattern, hops, done + {child}, found + more)
  {
    hide Reported, Blocks;
  }

  lemma FetchedIsChild(tree: Tree, coarse: Coarse, at: Path, hops: seq<Hop>, matching: set<Path>, child: Path)
    requires AreFetched(tree, coarse, at, hops, matching) && child in matching
    ensures child in tree && |child| == |at| + 1 && at < child && child == at + [Last(child)]
    ensures ClauseAt(hops, tree, child, coarse)
    ensures Below(tree, child) < Below(tree, at)
  {
    hide ClauseAt;
    assert child in Below(tree, at) && child !in Below(tree, child);
  }

  lemma HierarchyRoute(tree: Tree, at: Path)
    ensures HierarchyIn(tree, at).route == This
  {
  }

  /** The rows fetched are the children of the point that pass the clause. */
  lemma Fetched(tree: Tree, coarse: Coarse, point: Point, hops: seq<Hop>, at: Path, isVersion: string -> bool,
                matching: set<Path>)
    requires Registered(tree, isVersion) && StandsFor(point, at) && (at == [] || at in tree)
    requires matching == set path | path in tree && |path| > 0 && Display(Local(Up(path))) == Display(point)
                                    && ClauseAt(hops, tree, path, coarse)
    ensures AreFetched(tree, coarse, at, hops, matching)
  {
    hide StandsFor, Display, WellFormed, ClauseAt;
    forall path | path in tree
      ensures |path| > 0 && (Display(Local(Up(path))) == Display(point) <==> |path| == |at| + 1 && at < path)
    {
      ChildrenByText(tree, isVersion, point, at, path);
    }
  }

  ghost predicate AreFetched(tree: Tree, coarse: Coarse, at: Path, hops: seq<Hop>, matching: set<Path>) {
    forall path :: path in matching <==>
      path in tree && |path| == |at| + 1 && at < path && ClauseAt(hops, tree, path, coarse)
  }

  lemma NoHopsLeft(tree: Tree, coarse: Coarse, pattern: Selector, at: Path, matching: set<Path>)
    requires AreFetched(tree, coarse, at, [], matching)
    ensures forall path :: path in matching <==> Reported(tree, coarse, pattern, at, [], path)
    ensures forall path :: !Blocks(tree, coarse, at, [], path)
  {
    hide Reaches, ClauseAt, HopsFor, Selector.MatchesFoundOpt, HierarchyIn;
    forall path
      ensures path in matching <==> Reported(tree, coarse, pattern, at, [], path)
      ensures !Blocks(tree, coarse, at, [], path)
    {
      if Reaches(tree, coarse, at, [], path) {
        ReachesIsBelow(tree, coarse, at, [], path);
        ReachesOnlyChildren(tree, coarse, at, path);
      }
      if at < path && |path| == |at| + 1 {
        ReachesChild(tree, coarse, at, [], path);
      }
    }
  }

  lemma ReachesIsBelow(tree: Tree, coarse: Coarse, at: Path, hops: seq<Hop>, path: Path)
    requires Reaches(tree, coarse, at, hops, path)
    ensures at < path && path[..|at| + 1] in tree && ClauseAt(hops, tree, path[..|at| + 1], coarse)
  {
  }

  lemma ChildBlocks(tree: Tree, coarse: Coarse, at: Path, hops: seq<Hop>, child: Path)
    requires hops != [] && at < child && |child| == |at| + 1 && child in tree && ClauseAt(hops, tree, child, coarse)
    requires Last(child).FsRootDir?
    ensures Blocks(tree, coarse, at, hops, child)
  {
    ReachesChild(tree, coarse, at, hops, child);
  }

  lemma BlocksThrough(tree: Tree, coarse: Coarse, at: Path, hops: seq<Hop>, child: Path)
    requires hops != [] && at < child && |child| == |at| + 1 && child in tree && ClauseAt(hops, tree, child, coarse)
    requires exists path :: Blocks(tree, coarse, child, Rest(hops), path)
    ensures exists path :: Blocks(tree, coarse, at, hops, path)
  {
    hide Reaches, HopsFor, ClauseAt;
    var path :| Blocks(tree, coarse, child, Rest(hops), path);
    ReachesIsBelow(tree, coarse, child, Rest(hops), path);
    assert path[..|at| + 1] == child;
    ReachesThrough(tree, coarse, at, hops, path);
    assert Blocks(tree, coarse, at, hops, path);
  }

  lemma NoneBlocks(tree: Tree, coarse: Coarse, pattern: Selector, at: Path, hops: seq<Hop>, matching: set<Path>,
                   found: set<Path>)
    requires hops != [] && AreFetched(tree, coarse, at, hops, matching)
    requires FoundBelow(tree, coarse, pattern, hops, matching, found)
    ensures forall path :: !Blocks(tree, coarse, at, hops, path)
  {
    hide Reaches, HopsFor, ClauseAt;
    forall path
      ensures !Blocks(tree, coarse, at, hops, path)
    {
      if Reaches(tree, coarse, at, hops, path) {
        ReachesIsBelow(tree, coarse, at, hops, path);
        var child := path[..|at| + 1];
        assert child in matching;
        if child != path {
          ReachesThrough(tree, coarse, at, hops, path);
          assert Clear(tree, coarse, child, Rest(hops)) && !Blocks(tree, coarse, child, Rest(hops), path);
        }
      }
    }
  }

  lemma KeptAreReported(tree: Tree, coarse: Coarse, pattern: Selector, at: Path, hops: seq<Hop>, hierarchy: Hierarchy,
                        matching: set<Path>, kept: set<Path>, found: set<Path>)
    requires hops != [] && AreFetched(tree, coarse, at, hops, matching) && hierarchy == HierarchyIn(tree, at)
    requires kept == set path | path in matching && pattern.MatchesFoundOpt(
                       PointDef(hierarchy.route, hierarchy.segments + [PointKindSegOpt(Last(path), Some(tree[path]))]))
    requires FoundBelow(tree, coarse, pattern, hops, matching, found)
    ensures forall path :: path in kept + found <==> Reported(tree, coarse, pattern, at, hops, path)
  {
    hide Reaches, HopsFor, ClauseAt, Selector.MatchesFoundOpt, HierarchyIn;
    HierarchyRoute(tree, at);
    forall path
      ensures path in kept + found <==> Reported(tree, coarse, pattern, at, hops, path)
    {
      if path in matching {
        ReachesChild(tree, coarse, at, hops, path);
        HierarchyPush(tree, at, path);
        FoundIsDeeper(tree, coarse, pattern, at, hops, matching, found, path);
      } else {
        ReportedThrough(tree, coarse, pattern, at, hops, matching, found, path);
      }
    }
  }

  lemma FoundIsDeeper(tree: Tree, coarse: Coarse, pattern: Selector, at: Path, hops: seq<Hop>,
                      matching: set<Path>, found: set<Path>, path: Path)
    requires AreFetched(tree, coarse, at, hops, matching)
    requires path in found <==>
               exists child :: child in matching && Reported(tree, coarse, pattern, child, Rest(hops), path)
    requires |path| == |at| + 1
    ensures path !in found
  {
    hide Reaches, HopsFor, ClauseAt, Selector.MatchesFoundOpt, HierarchyIn;
    forall child | child in matching && Reported(tree, coarse, pattern, child, Rest(hops), path)
      ensures false
    {
      ReachesIsBelow(tree, coarse, child, Rest(hops), path);
    }
  }

  lemma ReportedThrough(tree: Tree, coarse: Coarse, pattern: Selector, at: Path, hops: seq<Hop>,
                        matching: set<Path>, found: set<Path>, path: Path)
    requires hops != [] && AreFetched(tree, coarse, at, hops, matching) && path !in matching
    requires path in found <==>
               exists child :: child in matching && Reported(tree, coarse, pattern, child, Rest(hops), path)
    ensures path in found <==> Reported(tree, coarse, pattern, at, hops, path)
  {
    hide Reaches, HopsFor, ClauseAt, Selector.MatchesFoundOpt, HierarchyIn;
    if Reported(tree, coarse, pattern, at, hops, path) {
      ReachesIsBelow(tree, coarse, at, hops, path);
      var child := path[..|at| + 1];
      assert child in matching;
      ReachesThrough(tree, coarse, at, hops, path);
      assert Reported(tree, coarse, pattern, child, Rest(hops), path);
    }
    if child :| child in matching && Reported(tree, coarse, pattern, child, Rest(hops), path) {
      ReachesIsBelow(tree, coarse, child, Rest(hops), path);
      assert path[..|at| + 1] == child;
      ReachesThrough(tree, coarse, at, hops, path);
    }
  }

  // ---------------------------------------------------------------- a select

  predicate MatchesRoot(selector: Selector) {
    || |selector.hops| == 0
    || (|selector.hops| == 1
        && (selector.hops[0].segment.InclusiveAny? || selector.hops[0].segment.InclusiveRecursive?)
        && selector.hops[0].kind.IsMatch(Kind("Root", None, None)))
  }

  /** The hops that are searched below the query root. */
  function SearchHops(selector: Selector): seq<Hop> {
    selector.hops[|QueryRootSegs(selector.hops)|..]
  }

  predicate Matched(tree: Tree, selector: Selector, path: Path) {
    path in tree && selector.MatchesFoundOpt(HierarchyIn(tree, path))
  }

  /** The search reports exactly the particles that match the selector. */
  ghost predicate FindsTheMatches(tree: Tree, coarse: Coarse, selector: Selector, at: Path) {
    forall path :: Reported(tree, coarse, selector, at, SearchHops(selector), path) <==> Matched(tree, selector, path)
  }

  /** The call ends well and reports exactly the particles that match. */
  ghost predicate SearchIsExact(tree: Tree, coarse: Coarse, selector: Selector, at: Path) {
    && (forall path :: !Blocks(tree, coarse, at, SearchHops(selector), path))
    && FindsTheMatches(tree, coarse, selector, at)
  }

  /** A select, once the hierarchy of its query root has been read; the root itself is added without a search. */
  method Select(tree: Tree, coarse: Coarse, selector: Selector, hierarchy: Hierarchy,
                ghost at: Path, ghost isVersion: string -> bool)
    returns (r: Result<set<Path>, PointError>)
    requires Registered(tree, isVersion) && (at == [] || at in tree) && hierarchy == HierarchyIn(tree, at)
    requires StandsFor(Local(QueryRootSegs(selector.hops)), at)
    ensures r.Err? <==> exists path :: Blocks(tree, coarse, at, SearchHops(selector), path)
    ensures r.Ok? ==> forall path :: path in r.value <==>
              || Reported(tree, coarse, selector, at, SearchHops(selector), path)
              || (path == [] && MatchesRoot(selector))
    ensures r.Ok? ==>
              ([] in r.value <==>
               || |selector.hops| == 0
               || (|selector.hops| == 1 && selector.hops[0].segment in {InclusiveAny, InclusiveRecursive}
                   && selector.hops[0].kind.IsMatch(Kind("Root", None, None))))
    ensures SearchIsExact(tree, coarse, selector, at) <==>
              r.Ok? && forall path :: path != [] ==> (path in r.value <==> Matched(tree, selector, path))
  {
    RootIsMatched(selector);
    hide Registered, StandsFor, Reported, Blocks, Selector.MatchesFoundOpt, HierarchyIn, RowsFit, RowsPass, MatchesRoot,
      QueryRootSegs, Matched;
    NoRootRow(tree, coarse, selector, at, isVersion);
    var point := QueryRoot(selector);
    var hops := SubSelectHops(selector);
    assert hops == SearchHops(selector);
    r := SubSelect(tree, coarse, selector, point, hops, hierarchy, at, isVersion);
    if r.Ok? && MatchesRoot(selector) {
      r := Ok(r.value + {[]});
    }
  }

  lemma RootIsMatched(selector: Selector)
    ensures MatchesRoot(selector) <==>
            || |selector.hops| == 0
            || (|selector.hops| == 1 && selector.hops[0].segment in {InclusiveAny, InclusiveRecursive}
                && selector.hops[0].kind.IsMatch(Kind("Root", None, None)))
  {
  }

  lemma NoRootRow(tree: Tree, coarse: Coarse, selector: Selector, at: Path, isVersion: string -> bool)
    requires Registered(tree, isVersion)
    ensures !Matched(tree, selector, []) && !Reported(tree, coarse, selector, at, SearchHops(selector), [])
  {
  }

  /** The query root that matches a registered particle stands for one of those above it. */
  lemma MatchStandsFor(tree: Tree, selector: Selector, path: Path, isVersion: string -> bool)
    requires Registered(tree, isVersion) && path in tree && selector.MatchesFoundOpt(HierarchyIn(tree, path))
    requires QueryPath(QueryRootSegs(selector.hops))
    ensures |QueryRootSegs(selector.hops)| <= |path|
    ensures SegmentsText(QueryRootSegs(selector.hops)) == SegmentsText(path[..|QueryRootSegs(selector.hops)|])
  {
    hide Selector.MatchesFoundOpt, QueryPath;
    QueryRootPrintsAsPrefix(selector, HierarchyIn(tree, path), Local(path), isVersion);
  }

  /** So all matching particles lie below the one the search starts from. */
  lemma MatchesLieBelow(tree: Tree, selector: Selector, at: Path, path: Path, isVersion: string -> bool)
    requires Registered(tree, isVersion) && (at == [] || at in tree) && path in tree
    requires StandsFor(Local(QueryRootSegs(selector.hops)), at) && QueryPath(QueryRootSegs(selector.hops))
    requires selector.MatchesFoundOpt(HierarchyIn(tree, path))
    ensures at <= path
  {
    hide Selector.MatchesFoundOpt, QueryPath, HierarchyIn, WellFormed;
    MatchStandsFor(tree, selector, path, isVersion);
    var up := path[..|at|];
    PrefixesRegistered(tree, isVersion, path, |at|);
    if at == [] {
      RootIsWellFormed(isVersion);
    } else {
      PrefixesRegistered(tree, isVersion, at, |at|);
      assert at[..|at|] == at;
    }
    UniqueReadability(Local(up), Local(at), isVersion);
  }

  lemma {:induction false} PrefixesRegistered(tree: Tree, isVersion: string -> bool, path: Path, n: nat)
    requires Registered(tree, isVersion) && path in tree && n <= |path|
    ensures WellFormed(Local(path[..n]), isVersion)
    ensures n > 0 ==> path[..n] in tree
    decreases |path| - n
  {
    PrefixWellFormed(Local(path), n, isVersion);
    if n == |path| {
      assert path[..n] == path;
    } else {
      PrefixesRegistered(tree, isVersion, path, n + 1);
      assert Up(path[..n + 1]) == path[..n];
    }
  }

  // ---------------------------------------------------------------- the hops level by level

  /** The hop at `r` is the first that stays for the next level, a `**` that is not inclusive; or none does. */
  predicate FirstStays(hops: seq<Hop>, r: nat) {
    && r <= |hops|
    && (forall i | 0 <= i < r :: !hops[i].segment.Recursive?)
    && (r < |hops| ==> hops[r].segment.Recursive?)
  }

  /** There is such an index for all hops. */
  function StaysAt(hops: seq<Hop>): (r: nat)
    ensures FirstStays(hops, r)
  {
    if |hops| == 0 || hops[0].segment.Recursive? then 0 else 1 + StaysAt(hops[1..])
  }

  function Least(a: nat, b: nat): nat {
    if a < b then a else b
  }

  lemma {:induction false} HopsAtLevel(hops: seq<Hop>, r: nat, n: nat)
    requires FirstStays(hops, r)
    ensures HopsAt(hops, n) == hops[Least(n, r)..]
    decreases n
  {
    if n == 0 {
      assert hops[0..] == hops;
    } else {
      RestStays(hops, r, n);
      hide FirstStays, Rest;
      HopsAtLevel(Rest(hops), if r == 0 then 0 else r - 1, n - 1);
    }
  }

  lemma RestStays(hops: seq<Hop>, r: nat, n: nat)
    requires FirstStays(hops, r) && n > 0
    ensures var q := if r == 0 then 0 else r - 1;
            FirstStays(Rest(hops), q) && Rest(hops)[Least(n - 1, q)..] == hops[Least(n, r)..]
  {
    var q := if r == 0 then 0 else r - 1;
    assert r > 0 ==> hops[1..][Least(n - 1, q)..] == hops[Least(n, r)..];
  }

  /** The level of the first `m` segments: it passes its hop, and hops are left unless it is the last. */
  predicate LevelOk(tree: Tree, coarse: Coarse, at: Path, hops: seq<Hop>, r: nat, path: Path, m: nat)
    requires r <= |hops| && |at| < m <= |path|
  {
    var level := Least(m - |at| - 1, r);
    && path[..m] in tree
    && ClauseAt(hops[level..], tree, path[..m], coarse)
    && (m < |path| ==> level < |hops|)
  }

  predicate PassesLevels(tree: Tree, coarse: Coarse, at: Path, hops: seq<Hop>, r: nat, path: Path)
    requires r <= |hops|
  {
    forall m: nat | |at| < m <= |path| :: LevelOk(tree, coarse, at, hops, r, path, m)
  }

  lemma LevelBelow(tree: Tree, coarse: Coarse, at: Path, hops: seq<Hop>, r: nat, path: Path, m: nat)
    requires FirstStays(hops, r) && |hops| > 0 && |at| + 1 < m <= |path|
    ensures var child, q := path[..|at| + 1], if r == 0 then 0 else r - 1;
            && FirstStays(Rest(hops), q)
            && (LevelOk(tree, coarse, at, hops, r, path, m) <==> LevelOk(tree, coarse, child, Rest(hops), q, path, m))
  {
    hide ClauseAt;
    RestStays(hops, r, m - |at| - 1);
  }

  lemma FirstLevel(tree: Tree, coarse: Coarse, at: Path, hops: seq<Hop>, r: nat, path: Path)
    requires r <= |hops| && at < path
    ensures var child := path[..|at| + 1];
            LevelOk(tree, coarse, at, hops, r, path, |at| + 1) <==>
            child in tree && ClauseAt(hops, tree, child, coarse) && (|at| + 1 < |path| ==> hops != [])
  {
    assert hops[0..] == hops;
  }

  lemma {:induction false} ReachesIffPasses(tree: Tree, coarse: Coarse, at: Path, hops: seq<Hop>, r: nat, path: Path)
    requires FirstStays(hops, r) && at < path
    ensures Reaches(tree, coarse, at, hops, path) <==> PassesLevels(tree, coarse, at, hops, r, path)
    decreases |path| - |at|
  {
    hide ClauseAt, LevelOk;
    var child := path[..|at| + 1];
    FirstLevel(tree, coarse, at, hops, r, path);
    if |path| > |at| + 1 && |hops| > 0 {
      var q := if r == 0 then 0 else r - 1;
      LevelBelow(tree, coarse, at, hops, r, path, |at| + 2);
      ReachesIffPasses(tree, coarse, child, Rest(hops), q, path);
      hide FirstStays;
      forall m: nat | |at| + 1 < m <= |path|
        ensures LevelOk(tree, coarse, at, hops, r, path, m) <==> LevelOk(tree, coarse, child, Rest(hops), q, path, m)
      {
        LevelBelow(tree, coarse, at, hops, r, path, m);
      }
    } else {
      assert child == path ==> |path| == |at| + 1;
      assert |path| == |at| + 1 ==> child == path;
    }
  }

  /** Hops are left at the level of the path. */
  predicate HopsLeft(at: Path, hops: seq<Hop>, r: nat, path: Path)
    requires at < path
  {
    Least(|path| - |at| - 1, r) < |hops|
  }

  lemma {:induction false} ReachedIsRegistered(tree: Tree, coarse: Coarse, at: Path, hops: seq<Hop>, path: Path)
    requires Reaches(tree, coarse, at, hops, path)
    ensures at < path && path in tree
    decreases |path| - |at|
  {
    var child := path[..|at| + 1];
    if child != path {
      ReachedIsRegistered(tree, coarse, child, Rest(hops), path);
    }
  }

  /**
  The rows of one level, in full.  If hops are left there, the row has the text an
  exact hop names and the base and sub kind the hop names, and passes the test on
  specifics; hops are left on every level but possibly the last.
   */
  predicate RowPasses(tree: Tree, coarse: Coarse, hops: seq<Hop>, level: nat, row: Path, isLast: bool)
    requires |row| > 0
  {
    && row in tree
    && (level >= |hops| ==> isLast)
    && (level < |hops| ==>
          var hop, kind := hops[level], tree[row];
          && (match hop.segment
              case Exact(ExactSeg(seg)) => row[|row| - 1].Text() == seg.Text()
              case Exact(ExactVersion(version)) => row[|row| - 1].Text() == version
              case _ => true)
          && (match hop.kind.base
              case ExactBase(base) =>
                && kind.base == base
                && (match hop.kind.sub
                    case ExactSub(sub) => kind.sub == Some(sub)
                    case _ => true)
              case _ => true)
          && coarse(hop.kind.specific, kind.specific))
  }

  predicate RowsPass(tree: Tree, coarse: Coarse, at: Path, hops: seq<Hop>, path: Path) {
    forall m: nat | |at| < m <= |path| ::
      RowPasses(tree, coarse, hops, Least(m - |at| - 1, StaysAt(hops)), path[..m], m == |path|)
  }

  /** Such rows on every level, and a match of the whole selector if hops are left at the end. */
  predicate RowsFit(tree: Tree, coarse: Coarse, pattern: Selector, at: Path, hops: seq<Hop>, path: Path)
    requires at < path
  {
    && RowsPass(tree, coarse, at, hops, path)
    && (Least(|path| - |at| - 1, StaysAt(hops)) < |hops| ==> pattern.MatchesFoundOpt(HierarchyIn(tree, path)))
  }

  lemma RowIsLevel(tree: Tree, coarse: Coarse, at: Path, hops: seq<Hop>, path: Path, m: nat)
    requires |at| < m <= |path|
    ensures RowPasses(tree, coarse, hops, Least(m - |at| - 1, StaysAt(hops)), path[..m], m == |path|) <==>
            LevelOk(tree, coarse, at, hops, StaysAt(hops), path, m)
  {
    hide StaysAt;
  }

  lemma RowsAreReported(tree: Tree, coarse: Coarse, pattern: Selector, at: Path, hops: seq<Hop>)
    ensures forall path :: Reported(tree, coarse, pattern, at, hops, path) <==>
                             at < path && RowsFit(tree, coarse, pattern, at, hops, path)
    ensures forall path :: Blocks(tree, coarse, at, hops, path) <==>
              && at < path && RowsPass(tree, coarse, at, hops, path) && Last(path) == FsRootDir
              && Least(|path| - |at| - 1, StaysAt(hops)) < |hops|
  {
    hide Reported, Blocks, LevelOk, RowPasses, HierarchyIn, Selector.MatchesFoundOpt, StaysAt;
    forall path
      ensures Reported(tree, coarse, pattern, at, hops, path) <==>
              at < path && RowsFit(tree, coarse, pattern, at, hops, path)
      ensures Blocks(tree, coarse, at, hops, path) <==>
              && at < path && RowsPass(tree, coarse, at, hops, path) && Last(path) == FsRootDir
              && Least(|path| - |at| - 1, StaysAt(hops)) < |hops|
    {
      ReportedByLevels(tree, coarse, pattern, at, hops, StaysAt(hops), path);
      forall m: nat | |at| < m <= |path|
        ensures RowPasses(tree, coarse, hops, Least(m - |at| - 1, StaysAt(hops)), path[..m], m == |path|) <==>
                LevelOk(tree, coarse, at, hops, StaysAt(hops), path, m)
      {
        RowIsLevel(tree, coarse, at, hops, path, m);
      }
    }
  }

  /** For all hops: what is reported, and what is in the way, by levels. */
  lemma ReportedByLevels(tree: Tree, coarse: Coarse, pattern: Selector, at: Path, hops: seq<Hop>, r: nat, path: Path)
    requires FirstStays(hops, r)
    ensures Reported(tree, coarse, pattern, at, hops, path) <==>
            && at < path && PassesLevels(tree, coarse, at, hops, r, path)
            && (HopsLeft(at, hops, r, path) ==> pattern.MatchesFoundOpt(HierarchyIn(tree, path)))
    ensures Blocks(tree, coarse, at, hops, path) <==>
            && at < path && PassesLevels(tree, coarse, at, hops, r, path)
            && HopsLeft(at, hops, r, path) && Last(path).FsRootDir?
  {
    hide Reaches, PassesLevels, HierarchyIn, Selector.MatchesFoundOpt;
    if Reaches(tree, coarse, at, hops, path) {
      ReachedIsRegistered(tree, coarse, at, hops, path);
    }
    if at < path {
      ReachesIffPasses(tree, coarse, at, hops, r, path);
      HopsAtLevel(hops, r, |path| - |at| - 1);
    }
  }

  // ---------------------------------------------------------------- when the search finds the matches

  /** The registry, the particle the search starts from and what the database tests, as the select has them. */
  ghost predicate SearchStart(tree: Tree, coarse: Coarse, selector: Selector, at: Path, isVersion: string -> bool) {
    && Registered(tree, isVersion)
    && (at == [] || at in tree)
    && StandsFor(Local(QueryRootSegs(selector.hops)), at)
    && QueryPath(QueryRootSegs(selector.hops))
    && LetsThrough(coarse)
  }

  /** No filesystem root is reached with hops left. */
  ghost predicate NoRootDirInTheWay(tree: Tree, coarse: Coarse, at: Path, hops: seq<Hop>, r: nat)
    requires r <= |hops|
  {
    forall path :: at < path && PassesLevels(tree, coarse, at, hops, r, path) && HopsLeft(at, hops, r, path) ==>
      !Last(path).FsRootDir?
  }

  /**
  For every selector, exactly when the call reports the particles that match:
  no filesystem root is reached with hops left, every particle that matches
  passes level by level, and what is reached with no hops left matches.
   */
  lemma SearchIsExactIff(tree: Tree, coarse: Coarse, selector: Selector, at: Path, r: nat)
    requires FirstStays(SearchHops(selector), r)
    ensures SearchIsExact(tree, coarse, selector, at) <==>
            var hops := SearchHops(selector);
            && NoRootDirInTheWay(tree, coarse, at, hops, r)
            && (forall path :: Matched(tree, selector, path) ==>
                  at < path && PassesLevels(tree, coarse, at, hops, r, path))
            && (forall path :: at < path && PassesLevels(tree, coarse, at, hops, r, path) ==>
                  HopsLeft(at, hops, r, path) || Matched(tree, selector, path))
  {
    hide Reported, Blocks, HopsLeft, HierarchyIn, Selector.MatchesFoundOpt;
    var hops := SearchHops(selector);
    forall path
      ensures Reported(tree, coarse, selector, at, hops, path) <==>
              && at < path && PassesLevels(tree, coarse, at, hops, r, path)
              && (HopsLeft(at, hops, r, path) ==> Matched(tree, selector, path))
      ensures Blocks(tree, coarse, at, hops, path) <==>
              && at < path && PassesLevels(tree, coarse, at, hops, r, path)
              && HopsLeft(at, hops, r, path) && Last(path).FsRootDir?
    {
      ReportedByLevels(tree, coarse, selector, at, hops, r, path);
      if at < path && PassesLevels(tree, coarse, at, hops, r, path) {
        PassedIsRegistered(tree, coarse, at, hops, r, path);
      }
    }
    hide PassesLevels, Matched, FirstStays;
  }

  lemma PassedIsRegistered(tree: Tree, coarse: Coarse, at: Path, hops: seq<Hop>, r: nat, path: Path)
    requires r <= |hops| && at < path && PassesLevels(tree, coarse, at, hops, r, path)
    ensures path in tree
  {
    assert LevelOk(tree, coarse, at, hops, r, path, |path|);
    assert path[..|path|] == path;
  }

  lemma MatchPassesClause(hop: Hop, segment: PointSeg, kind: Kind, coarse: Coarse)
    requires LetsThrough(coarse) && hop.IsMatch(PointKindSegOpt(segment, Some(kind)))
    ensures Clause(hop, segment, kind, coarse)
  {
  }

  /** The hops before the first that stays are plain. */
  predicate PlainUpTo(hops: seq<Hop>, r: nat) {
    FirstStays(hops, r) && NoRecursiveBefore(hops, r)
  }

  /** A matching particle lies below the start, and its segments match the hops before the recursive one. */
  lemma MatchedByPosition(tree: Tree, coarse: Coarse, selector: Selector, at: Path, r: nat, path: Path,
                          isVersion: string -> bool)
    requires SearchStart(tree, coarse, selector, at, isVersion) && Matched(tree, selector, path)
    requires SearchHops(selector) != [] && PlainUpTo(SearchHops(selector), r)
    ensures at < path
    ensures r == |SearchHops(selector)| ==> |path| <= |selector.hops|
    ensures forall i :: 0 <= i < |path| && i < |at| + r ==>
              selector.hops[i].IsMatch(HierarchyIn(tree, path).segments[i])
  {
    hide Selector.MatchesFoundOpt, SearchStart, HierarchyIn, Hop.IsMatch, PlainUpTo, QueryRootSegs, StandsFor,
      Registered;
    var hierarchy, k := HierarchyIn(tree, path), |at|;
    StartHasLength(tree, coarse, selector, at, isVersion);
    StaysWithin(SearchHops(selector), r);
    assert |hierarchy.segments| == |path| > 0 by {
      HierarchyLength(tree, path);
      StartRegistered(tree, coarse, selector, at, isVersion);
      RegisteredParents(tree, isVersion, path);
    }
    StartBelow(tree, coarse, selector, at, path, isVersion);
    PlainToStay(selector, k, r);
    hide SearchHops, NoRecursiveBefore;
    if k + r < |selector.hops| {
      PlainPrefixMatches(selector, hierarchy, k + r);
    } else {
      PlainSelectorMatches(selector, hierarchy);
    }
  }

  lemma StartBelow(tree: Tree, coarse: Coarse, selector: Selector, at: Path, path: Path, isVersion: string -> bool)
    requires SearchStart(tree, coarse, selector, at, isVersion) && Matched(tree, selector, path)
    ensures at <= path
  {
    hide Selector.MatchesFoundOpt, QueryPath, Registered, LetsThrough, HierarchyIn, StandsFor;
    MatchesLieBelow(tree, selector, at, path, isVersion);
  }

  /** The naming hops and the plain ones behind them; the last naming hop is not inclusive. */
  lemma PlainToStay(selector: Selector, k: nat, r: nat)
    requires k == |QueryRootSegs(selector.hops)| && PlainUpTo(SearchHops(selector), r)
    ensures k <= |selector.hops| && SearchHops(selector) == selector.hops[k..] && k + r <= |selector.hops|
    ensures NoRecursiveBefore(selector.hops, k + r)
    ensures k > 0 ==> !selector.hops[k - 1].inclusive
  {
    forall i | 0 <= i < k + r
      ensures !selector.hops[i].IsRecursive()
    {
      if i >= k {
        assert selector.hops[i] == SearchHops(selector)[i - k];
      }
    }
  }

  lemma StartRegistered(tree: Tree, coarse: Coarse, selector: Selector, at: Path, isVersion: string -> bool)
    requires SearchStart(tree, coarse, selector, at, isVersion)
    ensures Registered(tree, isVersion)
  {
  }

  lemma HierarchyLength(tree: Tree, path: Path)
    ensures |HierarchyIn(tree, path).segments| == |path|
  {
  }

  lemma SegmentOfPrefix(tree: Tree, path: Path, m: nat)
    requires 0 < m <= |path| && path[..m] in tree
    ensures HierarchyIn(tree, path).segments[m - 1] == PointKindSegOpt(Last(path[..m]), Some(tree[path[..m]]))
  {
  }

  /** So a matching particle passes the levels before the recursive hop. */
  lemma MatchedPassesLevel(tree: Tree, coarse: Coarse, selector: Selector, at: Path, r: nat, path: Path, m: nat,
                           isVersion: string -> bool)
    requires SearchStart(tree, coarse, selector, at, isVersion) && Matched(tree, selector, path)
    requires SearchHops(selector) != [] && PlainUpTo(SearchHops(selector), r)
    requires |at| < m <= |path| && m <= |at| + r
    ensures LevelOk(tree, coarse, at, SearchHops(selector), r, path, m)
  {
    hide Registered, StandsFor, QueryPath, LetsThrough, Clause, HierarchyIn, PlainUpTo, Selector.MatchesFoundOpt;
    MatchedByPosition(tree, coarse, selector, at, r, path, isVersion);
    PrefixesRegistered(tree, isVersion, path, m);
    SegmentOfPrefix(tree, path, m);
    StaysWithin(SearchHops(selector), r);
    assert StartLength(selector, at) by {
      StartHasLength(tree, coarse, selector, at, isVersion);
    }
    var hop := selector.hops[m - 1];
    assert hop == SearchHops(selector)[m - |at| - 1];
    MatchPassesClause(hop, Last(path[..m]), tree[path[..m]], coarse);
  }

  predicate StartLength(selector: Selector, at: Path) {
    |at| == |QueryRootSegs(selector.hops)|
  }

  lemma StartHasLength(tree: Tree, coarse: Coarse, selector: Selector, at: Path, isVersion: string -> bool)
    requires SearchStart(tree, coarse, selector, at, isVersion)
    ensures StartLength(selector, at)
  {
  }

  lemma StaysWithin(hops: seq<Hop>, r: nat)
    requires PlainUpTo(hops, r)
    ensures r <= |hops|
  {
  }

  /** A level at or behind the recursive hop: only that hop's clause counts. */
  lemma LevelBehind(tree: Tree, coarse: Coarse, at: Path, hops: seq<Hop>, r: nat, path: Path, m: nat)
    requires r < |hops| && |at| + r < m <= |path| && path[..m] in tree
    ensures LevelOk(tree, coarse, at, hops, r, path, m) <==> Clause(hops[r], Last(path[..m]), tree[path[..m]], coarse)
  {
  }

  predicate PassesBehind(tree: Tree, coarse: Coarse, at: Path, hops: seq<Hop>, r: nat, path: Path)
    requires r < |hops|
  {
    forall m: nat | |at| + r < m <= |path| ::
      path[..m] in tree && Clause(hops[r], Last(path[..m]), tree[path[..m]], coarse)
  }

  /** A matching particle passes all levels if it passes those from the recursive hop on. */
  lemma MatchedPasses(tree: Tree, coarse: Coarse, selector: Selector, at: Path, r: nat, path: Path,
                      isVersion: string -> bool)
    requires SearchStart(tree, coarse, selector, at, isVersion) && Matched(tree, selector, path)
    requires SearchHops(selector) != [] && PlainUpTo(SearchHops(selector), r)
    ensures at < path
    ensures PassesLevels(tree, coarse, at, SearchHops(selector), r, path) <==>
            (r < |SearchHops(selector)| ==> PassesBehind(tree, coarse, at, SearchHops(selector), r, path))
  {
    hide SearchStart, Clause, LevelOk, PlainUpTo, Selector.MatchesFoundOpt, HierarchyIn;
    var hops := SearchHops(selector);
    StaysWithin(hops, r);
    MatchedByPosition(tree, coarse, selector, at, r, path, isVersion);
    StartHasLength(tree, coarse, selector, at, isVersion);
    StartRegistered(tree, coarse, selector, at, isVersion);
    forall m: nat | |at| < m <= |path|
      ensures m <= |at| + r ==> LevelOk(tree, coarse, at, hops, r, path, m)
      ensures r < |hops| && |at| + r < m ==>
                path[..m] in tree && (LevelOk(tree, coarse, at, hops, r, path, m) <==>
                                      Clause(hops[r], Last(path[..m]), tree[path[..m]], coarse))
    {
      PrefixesRegistered(tree, isVersion, path, m);
      if m <= |at| + r {
        MatchedPassesLevel(tree, coarse, selector, at, r, path, m, isVersion);
      } else if r < |hops| {
        LevelBehind(tree, coarse, at, hops, r, path, m);
      }
    }
  }

  /**
  With plain hops up to a `**`: the call reports exactly the matches iff no
  filesystem root is reached, and every segment of a match from the `**` on
  passes its where clause.
   */
  lemma RecursiveSearchFinds(tree: Tree, coarse: Coarse, selector: Selector, at: Path, r: nat,
                             isVersion: string -> bool)
    requires SearchStart(tree, coarse, selector, at, isVersion)
    requires PlainUpTo(SearchHops(selector), r) && r < |SearchHops(selector)|
    ensures SearchIsExact(tree, coarse, selector, at) <==>
            var hops := SearchHops(selector);
            && (forall path :: at < path && PassesLevels(tree, coarse, at, hops, r, path) ==> !Last(path).FsRootDir?)
            && (forall path :: Matched(tree, selector, path) ==> PassesBehind(tree, coarse, at, hops, r, path))
  {
    SearchIsExactIff(tree, coarse, selector, at, r);
    hide SearchStart, PassesLevels, PassesBehind, Matched, SearchIsExact, FirstStays, SearchHops;
    forall path | Matched(tree, selector, path)
      ensures at < path
      ensures PassesLevels(tree, coarse, at, SearchHops(selector), r, path) <==>
              PassesBehind(tree, coarse, at, SearchHops(selector), r, path)
    {
      MatchedPasses(tree, coarse, selector, at, r, path, isVersion);
    }
  }

  /**
  Without recursive hops: the call reports exactly the matches iff no filesystem
  root is reached with hops left, and nothing is reached below the last hop.
   */
  lemma PlainSearchFinds(tree: Tree, coarse: Coarse, selector: Selector, at: Path, isVersion: string -> bool)
    requires SearchStart(tree, coarse, selector, at, isVersion) && SearchHops(selector) != []
    requires NoRecursiveBefore(selector.hops, |selector.hops|)
    ensures SearchIsExact(tree, coarse, selector, at) <==>
            forall path :: Reaches(tree, coarse, at, SearchHops(selector), path) ==>
              |path| <= |selector.hops| && !Last(path).FsRootDir?
  {
    hide SearchStart, PassesLevels, Reaches, SearchIsExact, HierarchyIn, Selector.MatchesFoundOpt, Hop.IsRecursive,
      FindsTheMatches, HopsLeft, QueryRootSegs;
    var hops, r := SearchHops(selector), |SearchHops(selector)|;
    PlainHopsStay(selector);
    SearchIsExactIff(tree, coarse, selector, at, r);
    hide FirstStays, SearchHops, NoRecursiveBefore, Matched;
    forall path
      ensures Reaches(tree, coarse, at, hops, path) <==>
              at < path && PassesLevels(tree, coarse, at, hops, r, path)
      ensures at < path ==> (HopsLeft(at, hops, r, path) <==> |path| <= |selector.hops|)
      ensures Matched(tree, selector, path) ==>
                at < path && PassesLevels(tree, coarse, at, hops, r, path) && |path| <= |selector.hops|
    {
      PlainLevels(tree, coarse, selector, at, path, isVersion);
    }
  }

  lemma PlainHopsStay(selector: Selector)
    requires NoRecursiveBefore(selector.hops, |selector.hops|)
    ensures var hops := SearchHops(selector); PlainUpTo(hops, |hops|) && FirstStays(hops, |hops|)
  {
  }

  lemma PlainLevels(tree: Tree, coarse: Coarse, selector: Selector, at: Path, path: Path, isVersion: string -> bool)
    requires SearchStart(tree, coarse, selector, at, isVersion) && SearchHops(selector) != []
    requires NoRecursiveBefore(selector.hops, |selector.hops|)
    ensures var hops, r := SearchHops(selector), |SearchHops(selector)|;
            && (Reaches(tree, coarse, at, hops, path) <==>
                  at < path && PassesLevels(tree, coarse, at, hops, r, path))
            && (at < path ==> (HopsLeft(at, hops, r, path) <==> |path| <= |selector.hops|))
            && (Matched(tree, selector, path) ==>
                  at < path && PassesLevels(tree, coarse, at, hops, r, path) && |path| <= |selector.hops|)
  {
    hide SearchStart, PassesLevels, Reaches, HierarchyIn, Selector.MatchesFoundOpt, QueryRootSegs, PlainUpTo,
      FirstStays;
    var hops, r := SearchHops(selector), |SearchHops(selector)|;
    PlainHopsStay(selector);
    StartHasLength(tree, coarse, selector, at, isVersion);
    if Reaches(tree, coarse, at, hops, path) {
      ReachedIsRegistered(tree, coarse, at, hops, path);
    }
    if at < path {
      ReachesIffPasses(tree, coarse, at, hops, r, path);
    }
    if Matched(tree, selector, path) {
      MatchedPasses(tree, coarse, selector, at, r, path, isVersion);
      MatchedByPosition(tree, coarse, selector, at, r, path, isVersion);
    }
  }

  /** A selector that only names is searched for below the particle it names: all children come, and it does not. */
  lemma NamedSearchFinds(tree: Tree, coarse: Coarse, selector: Selector, at: Path, isVersion: string -> bool)
    requires SearchStart(tree, coarse, selector, at, isVersion) && SearchHops(selector) == []
    ensures forall path :: Reported(tree, coarse, selector, at, [], path) <==>
                             path in tree && at < path && |path| == |at| + 1
    ensures forall path :: !Blocks(tree, coarse, at, [], path)
    ensures forall path :: Matched(tree, selector, path) ==> path == at
  {
    hide Reaches, Selector.MatchesFoundOpt, HierarchyIn, Registered, WellFormed, LetsThrough, QueryPath;
    forall path
      ensures Reported(tree, coarse, selector, at, [], path) <==> path in tree && at < path && |path| == |at| + 1
      ensures !Blocks(tree, coarse, at, [], path)
      ensures Matched(tree, selector, path) ==> path == at
    {
      if Reaches(tree, coarse, at, [], path) {
        ReachedIsRegistered(tree, coarse, at, [], path);
        ReachesOnlyChildren(tree, coarse, at, path);
      }
      if at < path && |path| == |at| + 1 {
        ReachesChild(tree, coarse, at, [], path);
      }
      if Matched(tree, selector, path) {
        MatchesLieBelow(tree, selector, at, path, isVersion);
        QuerySplit(selector, HierarchyIn(tree, path));
        HierarchyLength(tree, path);
        NothingMatchesMore(selector, HierarchyIn(tree, path), |at|);
      }
    }
  }

  lemma NothingMatchesMore(selector: Selector, hierarchy: Hierarchy, k: nat)
    requires k == |QueryRootSegs(selector.hops)| == |selector.hops| && selector.MatchesFoundOpt(hierarchy)
    ensures |hierarchy.segments| == k
  {
    QuerySplit(selector, hierarchy);
    Refinement(Selector(selector.always, selector.hops[k..]), PointDef(hierarchy.route, hierarchy.segments[k..]));
  }

  /**
  The inclusive `**` is used up by the first level of the search, so it reaches
  only two levels, though it matches at any depth.
   */
  lemma InclusiveRecursiveStops(tree: Tree, coarse: Coarse, hop: Hop, path: Path)
    requires hop.segment.InclusiveRecursive? && path in tree
    ensures Reaches(tree, coarse, [], [hop], path) ==> |path| <= 2
    ensures Selector(false, [hop]).MatchesFoundOpt(HierarchyIn(tree, path)) <==>
            |path| > 0 && hop.IsMatch(HierarchyIn(tree, path).segments[|path| - 1])
  {
    hide Hop.IsMatch;
    if Reaches(tree, coarse, [], [hop], path) && |path| > 1 {
      assert Rest([hop]) == [hop][1..] == [];
      ReachesOnlyChildren(tree, coarse, path[..1], path);
    }
    HierarchyLength(tree, path);
    if |path| > 0 {
      TrailingRecursiveMatches(Selector(false, [hop]), HierarchyIn(tree, path));
    }
  }

  // ---------------------------------------------------------------- registries on which the search is not exact

  /** A space and one particle below it. */
  function TwoRows(child: PointSeg, top: Kind, kind: Kind): Tree {
    map[[Space("a")] := top, [Space("a"), child] := kind]
  }

  function Chosen(hops: seq<Hop>): Selector {
    Selector(false, hops)
  }

  lemma TwoRowsStart(child: PointSeg, top: Kind, kind: Kind, coarse: Coarse, hops: seq<Hop>, isVersion: string -> bool)
    requires child.FsRootDir? || WellFormedMeshSeg(child, isVersion)
    requires LetsThrough(coarse) && |hops| > 0 && !NamesSegment(hops[0])
    ensures SearchStart(TwoRows(child, top, kind), coarse, Chosen(hops), [], isVersion)
    ensures SearchHops(Chosen(hops)) == hops
  {
    var tree := TwoRows(child, top, kind);
    assert QueryRootSegs(hops) == [] && hops[0..] == hops;
    assert [Space("a")][1..] == [] && [Space("a"), child][1..] == [child] && [child][1..] == [];
    assert WellFormedTail([child], isVersion);
    assert "a"[0] == 'a' && ROOT_TEXT[0] == 'R';
    assert Up([Space("a"), child]) == [Space("a")];
    forall path | path in tree
      ensures |path| > 0 && WellFormed(Local(path), isVersion) && path != [Space(ROOT_TEXT)]
      ensures |path| > 1 ==> Up(path) in tree
    {
    }
  }

  /** The path to the lower row passes when it passes both clauses. */
  lemma LowerRowPasses(child: PointSeg, top: Kind, kind: Kind, coarse: Coarse, hops: seq<Hop>, r: nat)
    requires r <= |hops| && |hops| > 0
    ensures PassesLevels(TwoRows(child, top, kind), coarse, [], hops, r, [Space("a"), child]) <==>
            && Clause(hops[0], Space("a"), top, coarse)
            && (Least(1, r) < |hops| ==> Clause(hops[Least(1, r)], child, kind, coarse))
    ensures HopsLeft([], hops, r, [Space("a"), child]) <==> Least(1, r) < |hops|
  {
    hide Clause;
    var tree, path := TwoRows(child, top, kind), [Space("a"), child];
    assert path[..1] == [Space("a")] && path[..2] == path;
    assert hops[0..] == hops;
    assert LevelOk(tree, coarse, [], hops, r, path, 1) <==> Clause(hops[0], Space("a"), top, coarse);
    assert LevelOk(tree, coarse, [], hops, r, path, 2) <==>
           (Least(1, r) < |hops| ==> Clause(hops[Least(1, r)], child, kind, coarse));
  }

  lemma UpperRowPasses(child: PointSeg, top: Kind, kind: Kind, coarse: Coarse, hops: seq<Hop>, r: nat)
    requires r <= |hops| && |hops| > 0 && Clause(hops[0], Space("a"), top, coarse)
    ensures PassesLevels(TwoRows(child, top, kind), coarse, [], hops, r, [Space("a")])
    ensures HopsLeft([], hops, r, [Space("a")])
  {
    hide Clause;
    assert [Space("a")][..1] == [Space("a")] && hops[0..] == hops;
  }

  /** A hop that names nothing and takes any kind passes every clause. */
  lemma AnyClause(hop: Hop, segment: PointSeg, kind: Kind, coarse: Coarse)
    requires LetsThrough(coarse) && !hop.segment.Exact? && hop.kind == ANY_KIND
    ensures Clause(hop, segment, kind, coarse)
  {
  }

  lemma BlocksIsInexact(tree: Tree, coarse: Coarse, selector: Selector, at: Path, path: Path)
    requires Blocks(tree, coarse, at, SearchHops(selector), path)
    ensures !SearchIsExact(tree, coarse, selector, at)
  {
  }

  lemma MissIsInexact(tree: Tree, coarse: Coarse, selector: Selector, at: Path, path: Path)
    requires Matched(tree, selector, path) != Reported(tree, coarse, selector, at, SearchHops(selector), path)
    ensures !SearchIsExact(tree, coarse, selector, at)
  {
    assert Matched(tree, selector, path) != Reported(tree, coarse, selector, at, SearchHops(selector), path);
  }

  lemma LowerRootBlocks(top: Kind, kind: Kind, coarse: Coarse, hops: seq<Hop>, r: nat)
    requires FirstStays(hops, r) && |hops| > 0 && Least(1, r) < |hops|
    requires Clause(hops[0], Space("a"), top, coarse) && Clause(hops[Least(1, r)], FsRootDir, kind, coarse)
    ensures Blocks(TwoRows(FsRootDir, top, kind), coarse, [], hops, [Space("a"), FsRootDir])
  {
    LowerRowPasses(FsRootDir, top, kind, coarse, hops, r);
    hide Reported, Blocks, PassesLevels, HopsLeft, Clause, TwoRows;
    ReportedByLevels(TwoRows(FsRootDir, top, kind), coarse, Chosen(hops), [], hops, r, [Space("a"), FsRootDir]);
  }

  /** With a bundle's filesystem root registered `**` matches everything and the search fails. */
  lemma RootDirStopsRecursive(top: Kind, kind: Kind, coarse: Coarse, isVersion: string -> bool)
    requires LetsThrough(coarse)
    ensures var tree, selector := TwoRows(FsRootDir, top, kind), Chosen([Hop(false, Recursive, ANY_KIND)]);
            && SearchStart(tree, coarse, selector, [], isVersion)
            && Blocks(tree, coarse, [], SearchHops(selector), [Space("a"), FsRootDir])
            && FindsTheMatches(tree, coarse, selector, [])
            && !SearchIsExact(tree, coarse, selector, [])
  {
    var hop := Hop(false, Recursive, ANY_KIND);
    var hops := [hop];
    var tree, selector, path := TwoRows(FsRootDir, top, kind), Chosen(hops), [Space("a"), FsRootDir];
    TwoRowsStart(FsRootDir, top, kind, coarse, hops, isVersion);
    AnyClause(hop, Space("a"), top, coarse);
    AnyClause(hop, FsRootDir, kind, coarse);
    UpperRowPasses(FsRootDir, top, kind, coarse, hops, 0);
    LowerRowPasses(FsRootDir, top, kind, coarse, hops, 0);
    LowerRootBlocks(top, kind, coarse, hops, 0);
    hide SearchStart, Blocks, PassesLevels, HopsLeft, Clause, SearchHops, SearchIsExact, FindsTheMatches;
    BlocksIsInexact(tree, coarse, selector, [], path);
    AllReachedFinds(tree, coarse, selector, 0);
  }

  /** Where every row is reached with hops left, what is reported is what matches. */
  lemma AllReachedFinds(tree: Tree, coarse: Coarse, selector: Selector, r: nat)
    requires FirstStays(SearchHops(selector), r)
    requires forall path :: path in tree ==>
               && |path| > 0 && PassesLevels(tree, coarse, [], SearchHops(selector), r, path)
               && HopsLeft([], SearchHops(selector), r, path)
    ensures FindsTheMatches(tree, coarse, selector, [])
  {
    hide Reported, HierarchyIn, Selector.MatchesFoundOpt, PassesLevels, HopsLeft, SearchHops;
    forall path
      ensures Reported(tree, coarse, selector, [], SearchHops(selector), path) <==> Matched(tree, selector, path)
    {
      ReportedIsRegistered(tree, coarse, selector, [], SearchHops(selector), path);
      ReportedByLevels(tree, coarse, selector, [], SearchHops(selector), r, path);
    }
  }

  lemma ReportedIsRegistered(tree: Tree, coarse: Coarse, pattern: Selector, at: Path, hops: seq<Hop>, path: Path)
    ensures Reported(tree, coarse, pattern, at, hops, path) ==> path in tree
  {
    hide Reaches;
    if Reaches(tree, coarse, at, hops, path) {
      ReachedIsRegistered(tree, coarse, at, hops, path);
    }
  }

  /** `*:*` reaches a filesystem root with its second hop left, and fails. */
  lemma RootDirStopsPlain(top: Kind, kind: Kind, coarse: Coarse, isVersion: string -> bool)
    requires LetsThrough(coarse)
    ensures var hop := Hop(false, Any, ANY_KIND);
            var tree, selector := TwoRows(FsRootDir, top, kind), Chosen([hop, hop]);
            && SearchStart(tree, coarse, selector, [], isVersion)
            && Blocks(tree, coarse, [], SearchHops(selector), [Space("a"), FsRootDir])
            && !SearchIsExact(tree, coarse, selector, [])
  {
    var hop := Hop(false, Any, ANY_KIND);
    var hops := [hop, hop];
    var tree, selector, path := TwoRows(FsRootDir, top, kind), Chosen(hops), [Space("a"), FsRootDir];
    TwoRowsStart(FsRootDir, top, kind, coarse, hops, isVersion);
    AnyClause(hop, Space("a"), top, coarse);
    AnyClause(hop, FsRootDir, kind, coarse);
    LowerRootBlocks(top, kind, coarse, hops, 2);
    hide SearchStart, Blocks, Clause, SearchHops, SearchIsExact;
    BlocksIsInexact(tree, coarse, selector, [], path);
  }

  const SPACE_KIND := Kind("Space", None, None)
  const USER_KIND := Kind("User", None, None)
  const USERS := KindSelector(ExactBase("User"), AlwaysSub, AlwaysSpecific)

  /** The search for `**` of one kind does not go on below a particle of another. */
  lemma ClauseMissesMatch(coarse: Coarse, isVersion: string -> bool)
    requires LetsThrough(coarse) && !isVersion("b")
    ensures var tree, selector := TwoRows(Base("b"), SPACE_KIND, USER_KIND), Chosen([Hop(false, Recursive, USERS)]);
            && SearchStart(tree, coarse, selector, [], isVersion)
            && Matched(tree, selector, [Space("a"), Base("b")])
            && !Reported(tree, coarse, selector, [], SearchHops(selector), [Space("a"), Base("b")])
            && !SearchIsExact(tree, coarse, selector, [])
  {
    var hop := Hop(false, Recursive, USERS);
    var hops := [hop];
    var tree, selector, path := TwoRows(Base("b"), SPACE_KIND, USER_KIND), Chosen(hops), [Space("a"), Base("b")];
    TwoRowsStart(Base("b"), SPACE_KIND, USER_KIND, coarse, hops, isVersion);
    LowerRowPasses(Base("b"), SPACE_KIND, USER_KIND, coarse, hops, 0);
    assert !Clause(hop, Space("a"), SPACE_KIND, coarse) by {
      assert "Space"[0] == 'S' && "User"[0] == 'U';
    }
    hide SearchStart, Reported, HierarchyIn, Selector.MatchesFoundOpt, PassesLevels, Clause, SearchHops, SearchIsExact,
      HopsLeft, Matched;
    LowerUserMatches(SPACE_KIND);
    ReportedByLevels(tree, coarse, selector, [], hops, 0, path);
    MissIsInexact(tree, coarse, selector, [], path);
  }

  lemma LowerUserMatches(top: Kind)
    ensures Matched(TwoRows(Base("b"), top, USER_KIND), Chosen([Hop(false, Recursive, USERS)]), [Space("a"), Base("b")])
  {
    var tree, path := TwoRows(Base("b"), top, USER_KIND), [Space("a"), Base("b")];
    assert path[..2] == path;
    SegmentOfPrefix(tree, path, 2);
    HierarchyLength(tree, path);
    hide HierarchyIn, Selector.MatchesFoundOpt;
    TrailingRecursiveMatches(Chosen([Hop(false, Recursive, USERS)]), HierarchyIn(tree, path));
  }

  /** The search for `*` also reports the children of what matches. */
  lemma SearchOvershoots(top: Kind, kind: Kind, coarse: Coarse, isVersion: string -> bool)
    requires LetsThrough(coarse) && !isVersion("b")
    ensures var tree, selector := TwoRows(Base("b"), top, kind), Chosen([Hop(false, Any, ANY_KIND)]);
            && SearchStart(tree, coarse, selector, [], isVersion)
            && !Matched(tree, selector, [Space("a"), Base("b")])
            && Reported(tree, coarse, selector, [], SearchHops(selector), [Space("a"), Base("b")])
            && !SearchIsExact(tree, coarse, selector, [])
  {
    var hop := Hop(false, Any, ANY_KIND);
    var hops := [hop];
    var tree, selector, path := TwoRows(Base("b"), top, kind), Chosen(hops), [Space("a"), Base("b")];
    TwoRowsStart(Base("b"), top, kind, coarse, hops, isVersion);
    AnyClause(hop, Space("a"), top, coarse);
    LowerRowPasses(Base("b"), top, kind, coarse, hops, 1);
    HierarchyLength(tree, path);
    hide SearchStart, Reported, HierarchyIn, Selector.MatchesFoundOpt, PassesLevels, HopsLeft, Clause, SearchHops,
      SearchIsExact;
    PlainSelectorMatches(selector, HierarchyIn(tree, path));
    ReportedByLevels(tree, coarse, selector, [], hops, 1, path);
    MissIsInexact(tree, coarse, selector, [], path);
  }
}
