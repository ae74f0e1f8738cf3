/**
Points: the addresses of particles.  A point is a route followed by segments
that lead from the root to the particle.

The point functions that are index loops in space/src/point.rs are methods
here, each proved against a declarative function; the functions that recurse
or only build a value are functions.
 */
module Points {
  import opened Outcomes

  // A semantic version is represented by its printed form.
  type VersionText = string

  datatype RouteSeg =
    | This
    | Local
    | Remote
    | Global
    | Domain(domain: string)
    | Tag(tag: string)
    | StarRoute(star: string)

  datatype PointSegKind =
    | RootKind
    | SpaceKind
    | BaseKind
    | FileStoreRootKind
    | DirKind
    | FileKind
    | VersionKind
    | PopKind
    | WorkingKind
    | VarKind
  {
    function PrecedingDelim(postFileroot: bool): string {
      match this
      case SpaceKind | DirKind | FileKind | RootKind => ""
      case BaseKind | VersionKind | FileStoreRootKind => ":"
      case PopKind | WorkingKind | VarKind => if postFileroot then "" else ":"
    }

    predicate IsFilesystemSeg() {
      match this
      case RootKind | SpaceKind | BaseKind | VersionKind => false
      case _ => true
    }

    predicate IsMeshSeg() {
      match this
      case FileStoreRootKind | DirKind | FileKind => false
      case _ => true
    }
  }

  datatype PointSeg =
    | Root
    | Space(space: string)
    | Base(base: string)
    | FsRootDir
    | Dir(dir: string)
    | File(file: string)
    | Version(version: VersionText)
  {
    function Kind(): PointSegKind {
      match this
      case Root => RootKind
      case Space(_) => SpaceKind
      case Base(_) => BaseKind
      case FsRootDir => FileStoreRootKind
      case Dir(_) => DirKind
      case File(_) => FileKind
      case Version(_) => VersionKind
    }

    function Text(): string {
      match this
      case Root => ""
      case Space(space) => space
      case Base(base) => base
      case FsRootDir => "/"
      case Dir(dir) => dir
      case File(file) => file
      case Version(version) => version
    }
  }

  datatype PointDef<Route, Seg> = PointDef(route: Route, segments: seq<Seg>) {
    predicate IsRoot() {
      |segments| == 0
    }

    function Parent(): Option<PointDef<Route, Seg>> {
      if |segments| == 0 then None else Some(PointDef(route, segments[..|segments| - 1]))
    }
  }

  type Point = PointDef<RouteSeg, PointSeg>

  function Texts(segments: seq<PointSeg>): seq<string> {
    seq(|segments|, i requires 0 <= i < |segments| => segments[i].Text())
  }

  // ---------------------------------------------------------------- prefix order

  /** `a` lies on the path from the root to `b` (possibly `a` is `b` itself). */
  predicate Ancestor(a: Point, b: Point) {
    a.route == b.route && a.segments <= b.segments
  }

  method IsParentOf(self: Point, point: Point) returns (r: bool)
    ensures r <==> Ancestor(self, point)
  {
    if |self.segments| > |point.segments| {
      return false;
    }
    if self.route != point.route {
      return false;
    }
    for i := 0 to |self.segments|
      invariant self.segments[..i] == point.segments[..i]
    {
      if self.segments[i] != point.segments[i] {
        return false;
      }
    }
    assert self.segments == self.segments[..|self.segments|];
    return true;
  }

  /** The point reached from `p` by `n` parent steps, if there are that many. */
  function ParentSteps(p: Point, n: nat): Option<Point>
    decreases n
  {
    if n == 0 then Some(p)
    else
      match p.Parent()
      case None => None
      case Some(parent) => ParentSteps(parent, n - 1)
  }

  lemma {:induction false} ParentStepsDropsSegments(p: Point, n: nat)
    ensures ParentSteps(p, n) ==
            if n <= |p.segments| then Some(PointDef(p.route, p.segments[..|p.segments| - n])) else None
    decreases n
  {
    if n == 0 {
      assert p.segments[..|p.segments|] == p.segments;
    } else if |p.segments| > 0 {
      var parent := p.Parent().value;
      ParentStepsDropsSegments(parent, n - 1);
      if n <= |p.segments| {
        assert parent.segments[..|parent.segments| - (n - 1)] == p.segments[..|p.segments| - n];
      }
    }
  }

  lemma AncestorIffParentSteps(a: Point, b: Point)
    ensures Ancestor(a, b) <==> exists n: nat :: ParentSteps(b, n) == Some(a)
  {
    if Ancestor(a, b) {
      var n := |b.segments| - |a.segments|;
      ParentStepsDropsSegments(b, n);
      assert b.segments[..|b.segments| - n] == a.segments;
      assert ParentSteps(b, n) == Some(a);
    }
    forall n: nat | ParentSteps(b, n) == Some(a)
      ensures Ancestor(a, b)
    {
      ParentStepsDropsSegments(b, n);
    }
  }

  lemma AncestorIsPartialOrder(a: Point, b: Point, c: Point)
    ensures Ancestor(a, a)
    ensures Ancestor(a, b) && Ancestor(b, a) ==> a == b
    ensures Ancestor(a, b) && Ancestor(b, c) ==> Ancestor(a, c)
    // the ancestors of one point form a chain
    ensures Ancestor(a, c) && Ancestor(b, c) ==> Ancestor(a, b) || Ancestor(b, a)
  {
    if Ancestor(a, b) && Ancestor(b, a) {
      assert a.segments == b.segments;
    }
    if Ancestor(a, c) && Ancestor(b, c) {
      if |a.segments| <= |b.segments| {
        assert a.segments == b.segments[..|a.segments|];
      } else {
        assert b.segments == a.segments[..|b.segments|];
      }
    }
  }

  datatype RelativeError = RouteMismatch | FewerSegments | NotASubset

  function RelativeTo(self: Point, parent: Point): Result<seq<string>, RelativeError> {
    if self.route != parent.route then Err(RouteMismatch)
    else if |self.segments| < |parent.segments| then Err(FewerSegments)
    else if !(parent.segments <= self.segments) then Err(NotASubset)
    else Ok(Texts(self.segments[|parent.segments|..]))
  }

  method RelativeSegs(self: Point, parent: Point) returns (r: Result<seq<string>, RelativeError>)
    ensures r == RelativeTo(self, parent)
    ensures r.Ok? <==> self.route == parent.route && parent.segments <= self.segments
    ensures r.Ok? ==> |r.value| == |self.segments| - |parent.segments|
    ensures r.Ok? ==> forall i :: 0 <= i < |r.value| ==> r.value[i] == self.segments[|parent.segments| + i].Text()
    ensures r == Err(RouteMismatch) <==> self.route != parent.route
    ensures r == Err(FewerSegments) <==> self.route == parent.route && |self.segments| < |parent.segments|
    ensures r == Err(NotASubset) <==>
            && self.route == parent.route && |self.segments| >= |parent.segments|
            && self.segments[..|parent.segments|] != parent.segments
  {
    if self.route != parent.route {
      return Err(RouteMismatch);
    }
    if |self.segments| < |parent.segments| {
      return Err(FewerSegments);
    }
    for i := 0 to |parent.segments|
      invariant parent.segments[..i] == self.segments[..i]
    {
      if parent.segments[i] != self.segments[i] {
        return Err(NotASubset);
      }
    }
    assert parent.segments == parent.segments[..|parent.segments|];
    var rtn := [];
    for i := |parent.segments| to |self.segments|
      invariant rtn == Texts(self.segments[|parent.segments|..i])
    {
      rtn := rtn + [self.segments[i].Text()];
    }
    assert self.segments[|parent.segments|..|self.segments|] == self.segments[|parent.segments|..];
    return Ok(rtn);
  }

  lemma RelativeSegsCompose(a: Point, b: Point, c: Point)
    requires Ancestor(a, b) && Ancestor(b, c)
    ensures RelativeTo(b, a).Ok? && RelativeTo(c, b).Ok?
    ensures RelativeTo(c, a) == Ok(RelativeTo(b, a).value + RelativeTo(c, b).value)
  {
    var left, right := b.segments[|a.segments|..], c.segments[|b.segments|..];
    assert c.segments[|a.segments|..] == left + right;
    assert Texts(left + right) == Texts(left) + Texts(right);
  }

  // ---------------------------------------------------------------- bundles

  datatype PointError = NoBundle | KindNotFound | CannotPush | NoFilepath | NotTheParent

  predicate VersionAt(p: Point, i: int) {
    0 <= i < |p.segments| && p.segments[i].Version?
  }

  function Prefix(p: Point, n: nat): Point
    requires n <= |p.segments|
  {
    PointDef(p.route, p.segments[..n])
  }

  function ToBundle(p: Point): Result<Point, PointError>
    decreases |p.segments|
  {
    if |p.segments| == 0 then Err(NoBundle)
    else if p.segments[|p.segments| - 1].Version? then Ok(p)
    else ToBundle(p.Parent().value)
  }

  predicate HasBundle(p: Point) {
    if |p.segments| == 0 then false
    else if p.segments[|p.segments| - 1].Version? then true
    else ToBundle(p.Parent().value).Ok?
  }

  method IsArtifactBundlePart(p: Point) returns (r: bool)
    ensures r <==> exists i :: VersionAt(p, i)
    ensures r <==> ToBundle(p).Ok?
  {
    r := false;
    for i := 0 to |p.segments|
      invariant forall j :: 0 <= j < i ==> !VersionAt(p, j)
      invariant !r
    {
      if p.segments[i].Version? {
        assert VersionAt(p, i);
        r := true;
        break;
      }
    }
    ToBundleIsLongest(p);
  }

  ghost predicate LastVersion(p: Point, i: int) {
    VersionAt(p, i) && forall j :: VersionAt(p, j) ==> j <= i
  }

  ghost predicate FirstVersion(p: Point, i: int) {
    VersionAt(p, i) && forall j :: VersionAt(p, j) ==> i <= j
  }

  ghost predicate LongestBundle(p: Point, b: Point) {
    exists i :: LastVersion(p, i) && b == Prefix(p, i + 1)
  }

  ghost predicate ShortestBundle(p: Point, b: Point) {
    exists i :: FirstVersion(p, i) && b == Prefix(p, i + 1)
  }

  /** A last segment that is no version takes no part in the choice. */
  lemma LongestBundleOfParent(p: Point, b: Point)
    requires |p.segments| > 0 && !p.segments[|p.segments| - 1].Version?
    requires LongestBundle(p.Parent().value, b)
    ensures LongestBundle(p, b)
  {
    var parent := p.Parent().value;
    var i :| LastVersion(parent, i) && b == Prefix(parent, i + 1);
    assert parent.segments[..i + 1] == p.segments[..i + 1];
    assert LastVersion(p, i) by {
      assert VersionAt(p, i);
      assert forall j :: VersionAt(p, j) ==> VersionAt(parent, j);
    }
  }

  lemma {:induction false} ToBundleIsLongest(p: Point)
    ensures ToBundle(p).Ok? <==> exists i :: VersionAt(p, i)
    ensures ToBundle(p).Ok? <==> HasBundle(p)
    ensures ToBundle(p).Ok? ==> LongestBundle(p, ToBundle(p).value)
    decreases |p.segments|
  {
    hide LongestBundle;
    var n := |p.segments|;
    if n == 0 {
    } else if p.segments[n - 1].Version? {
      assert VersionAt(p, n - 1);
      WholeIsLongest(p);
    } else {
      var parent := p.Parent().value;
      ToBundleIsLongest(parent);
      assert forall j :: VersionAt(p, j) <==> VersionAt(parent, j);
      if ToBundle(p).Ok? {
        LongestBundleOfParent(p, ToBundle(p).value);
      }
    }
  }

  lemma WholeIsLongest(p: Point)
    requires VersionAt(p, |p.segments| - 1)
    ensures LongestBundle(p, p)
  {
    assert p.segments[..|p.segments|] == p.segments;
    assert LastVersion(p, |p.segments| - 1);
  }

  lemma ToBundleIdempotent(p: Point)
    requires ToBundle(p).Ok?
    ensures ToBundle(ToBundle(p).value) == ToBundle(p)
    ensures Ancestor(ToBundle(p).value, p)
  {
    hide LongestBundle;
    ToBundleIsLongest(p);
    var b := ToBundle(p).value;
    LongestBundleEndsInVersion(p, b);
    assert ToBundle(b) == Ok(b);
  }

  lemma LongestBundleEndsInVersion(p: Point, b: Point)
    requires LongestBundle(p, b)
    ensures |b.segments| > 0 && b.segments[|b.segments| - 1].Version?
    ensures Ancestor(b, p)
  {
  }

  function FirstOfKind(segments: seq<PointSeg>, kind: PointSegKind): (r: Option<nat>)
    ensures r.Some? ==> r.value < |segments| && segments[r.value].Kind() == kind
    ensures r.Some? ==> forall i :: 0 <= i < r.value ==> segments[i].Kind() != kind
    ensures r.None? ==> forall i :: 0 <= i < |segments| ==> segments[i].Kind() != kind
  {
    if |segments| == 0 then None
    else if segments[0].Kind() == kind then Some(0)
    else
      match FirstOfKind(segments[1..], kind)
      case None => assert forall i :: 0 < i < |segments| ==> segments[i] == segments[1..][i - 1]; None
      case Some(i) => assert forall j :: 0 < j < i + 1 ==> segments[j] == segments[1..][j - 1]; Some(i + 1)
  }

  /** The shortest prefix that ends in a segment of the given kind. */
  function TruncatedTo(p: Point, kind: PointSegKind): Result<Point, PointError> {
    match FirstOfKind(p.segments, kind)
    case None => Err(KindNotFound)
    case Some(i) => Ok(Prefix(p, i + 1))
  }

  lemma FirstOfKindIs(segments: seq<PointSeg>, kind: PointSegKind, i: nat)
    requires i < |segments| && segments[i].Kind() == kind
    requires forall j :: 0 <= j < i ==> segments[j].Kind() != kind
    ensures FirstOfKind(segments, kind) == Some(i)
  {
  }

  method Truncate(self: Point, kind: PointSegKind) returns (r: Result<Point, PointError>)
    ensures r == TruncatedTo(self, kind)
    // the same in full: cut behind the first segment of the kind, if there is one
    ensures r.Ok? ==>
              && r.value.route == self.route && r.value.segments <= self.segments && |r.value.segments| > 0
              && r.value.segments[|r.value.segments| - 1].Kind() == kind
              && forall i :: 0 <= i < |r.value.segments| - 1 ==> self.segments[i].Kind() != kind
    ensures r.Err? ==>
              r.error == KindNotFound && forall i :: 0 <= i < |self.segments| ==> self.segments[i].Kind() != kind
  {
    hide FirstOfKind;
    var segments := [];
    for i := 0 to |self.segments|
      invariant segments == self.segments[..i]
      invariant forall j :: 0 <= j < i ==> self.segments[j].Kind() != kind
    {
      segments := segments + [self.segments[i]];
      if self.segments[i].Kind() == kind {
        FirstOfKindIs(self.segments, kind, i);
        assert segments == self.segments[..i + 1];
        return Ok(PointDef(self.route, segments));
      }
    }
    return Err(KindNotFound);
  }

  /** The kinds by which a point can be cut name one segment each; no segment has one of the other kinds. */
  lemma KindsNameSegments(segment: PointSeg)
    ensures segment.Kind() == RootKind <==> segment.Root?
    ensures segment.Kind() == SpaceKind <==> segment.Space?
    ensures segment.Kind() == BaseKind <==> segment.Base?
    ensures segment.Kind() == FileStoreRootKind <==> segment.FsRootDir?
    ensures segment.Kind() == DirKind <==> segment.Dir?
    ensures segment.Kind() == FileKind <==> segment.File?
    ensures segment.Kind() == VersionKind <==> segment.Version?
  {
  }

  lemma TruncateVersionIsShortest(p: Point)
    ensures TruncatedTo(p, VersionKind).Ok? <==> exists i :: VersionAt(p, i)
    ensures TruncatedTo(p, VersionKind).Ok? ==> ShortestBundle(p, TruncatedTo(p, VersionKind).value)
  {
    var first := FirstOfKind(p.segments, VersionKind);
    assert forall i :: 0 <= i < |p.segments| ==> (p.segments[i].Kind() == VersionKind <==> VersionAt(p, i));
    if first.Some? {
      assert FirstVersion(p, first.value);
    }
  }

  /** The two ways to cut a point at a bundle agree exactly when it names one version. */
  lemma BundleCutsCoincide(p: Point)
    requires ToBundle(p).Ok?
    ensures TruncatedTo(p, VersionKind).Ok?
    ensures ToBundle(p) == TruncatedTo(p, VersionKind) <==>
            forall i, j :: VersionAt(p, i) && VersionAt(p, j) ==> i == j
  {
    hide ToBundle, TruncatedTo, HasBundle, FirstOfKind;
    ToBundleIsLongest(p);
    TruncateVersionIsShortest(p);
    var long, short := ToBundle(p).value, TruncatedTo(p, VersionKind).value;
    var i :| LastVersion(p, i) && long == Prefix(p, i + 1);
    var k :| FirstVersion(p, k) && short == Prefix(p, k + 1);
    assert |long.segments| == i + 1 && |short.segments| == k + 1;
    OneVersion(p, i, k);
  }

  lemma OneVersion(p: Point, last: int, first: int)
    requires LastVersion(p, last) && FirstVersion(p, first)
    ensures last == first <==> forall i, j :: VersionAt(p, i) && VersionAt(p, j) ==> i == j
  {
  }

  // ---------------------------------------------------------------- filesystem part

  predicate IsFilesystemRef(p: Point) {
    |p.segments| > 0 && p.segments[|p.segments| - 1].Kind().IsFilesystemSeg()
  }

  predicate HasFilesystem(p: Point) {
    PointSeg.FsRootDir in p.segments
  }

  function NonFileParent(p: Point): Point
    decreases |p.segments|
  {
    if !IsFilesystemRef(p) then p else NonFileParent(p.Parent().value)
  }

  function FileText(segment: PointSeg): string {
    match segment
    case FsRootDir => "/"
    case Dir(dir) => dir
    case File(file) => file
    case _ => ""
  }

  function FileTexts(segments: seq<PointSeg>): string {
    if |segments| == 0 then "" else FileText(segments[0]) + FileTexts(segments[1..])
  }

  lemma {:induction false} FileTextsAppend(a: seq<PointSeg>, b: seq<PointSeg>)
    ensures FileTexts(a + b) == FileTexts(a) + FileTexts(b)
  {
    if |a| == 0 {
      assert a + b == b;
    } else {
      assert (a + b)[0] == a[0] && (a + b)[1..] == a[1..] + b;
      FileTextsAppend(a[1..], b);
    }
  }

  function FilepathOf(p: Point): Option<string> {
    var path := FileTexts(p.segments);
    if |path| == 0 then None else Some(path)
  }

  method Filepath(self: Point) returns (r: Option<string>)
    ensures r == FilepathOf(self)
  {
    var path := "";
    for i := 0 to |self.segments|
      invariant path == FileTexts(self.segments[..i])
    {
      match self.segments[i] {
        case FsRootDir => path := path + "/";
        case Dir(dir) => path := path + dir;
        case File(file) => path := path + file;
        case _ =>
      }
      FileTextsAppend(self.segments[..i], [self.segments[i]]);
      assert self.segments[..i + 1] == self.segments[..i] + [self.segments[i]];
    }
    assert self.segments[..|self.segments|] == self.segments;
    return if |path| == 0 then None else Some(path);
  }

  function TruncateFilepath(p: Point, parent: Point): Result<string, PointError> {
    if NonFileParent(p) == parent then
      match FilepathOf(p)
      case None => Err(NoFilepath)
      case Some(path) => Ok(path)
    else Err(NotTheParent)
  }

  // ---------------------------------------------------------------- push and pop

  function PushSegment(p: Point, segment: PointSeg): Result<Point, PointError> {
    if (HasFilesystem(p) && segment.Kind().IsFilesystemSeg()) || segment.Kind().IsMeshSeg()
    then Ok(PointDef(p.route, p.segments + [segment]))
    else Err(CannotPush)
  }

  function Pop(p: Point): Point {
    if |p.segments| == 0 then p else PointDef(p.route, p.segments[..|p.segments| - 1])
  }

  /**
  Pop undoes push.  A point never gains a filesystem part through PushSegment:
  the filesystem root itself is refused until the point already has one.
   */
  lemma PushThenPop(p: Point, segment: PointSeg)
    ensures PushSegment(p, segment).Ok? ==> Pop(PushSegment(p, segment).value) == p
    ensures PushSegment(p, segment).Ok? ==> PushSegment(p, segment).value.Parent() == Some(p)
    ensures PushSegment(p, segment).Ok? ==> (HasFilesystem(PushSegment(p, segment).value) <==> HasFilesystem(p))
    ensures PushSegment(p, segment).Ok? <==>
            || segment.Root? || segment.Space? || segment.Base? || segment.Version?
            || exists i :: 0 <= i < |p.segments| && p.segments[i] == FsRootDir
    ensures PushSegment(p, segment).Ok? ==> PushSegment(p, segment).value == PointDef(p.route, p.segments + [segment])
    ensures Pop(p) == match p.Parent() { case Some(parent) => parent case None => p }
  {
    if PushSegment(p, segment).Ok? {
      assert (p.segments + [segment])[..|p.segments|] == p.segments;
      assert PointSeg.FsRootDir in p.segments + [segment] <==> PointSeg.FsRootDir in p.segments || segment.FsRootDir?;
    }
  }
}
