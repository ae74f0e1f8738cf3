/**
The printed form of a point and what can be read back from it.

Whether a text is a semantic version is decided by the semver library; it is
the parameter `isVersion` here, so every result holds for any such test.
 */
module PointPrinter {
  import opened Outcomes
  import opened Points

  const ROOT_TEXT := "ROOT"

  function RouteText(route: RouteSeg): string {
    match route
    case This => "."
    case Domain(domain) => domain
    case Tag(tag) => "[" + tag + "]"
    case StarRoute(star) => "<<" + star + ">>"
    case Global => "GLOBAL"
    case Local => "LOCAL"
    case Remote => "REMOTE"
  }

  /** The text of all segments but the first: each with its delimiter. */
  function Tail(segments: seq<PointSeg>): string {
    if |segments| == 0 then ""
    else segments[0].Kind().PrecedingDelim(true) + segments[0].Text() + Tail(segments[1..])
  }

  function SegmentsText(segments: seq<PointSeg>): string {
    if |segments| == 0 then ROOT_TEXT else segments[0].Text() + Tail(segments[1..])
  }

  function Postfix(p: Point): string {
    SegmentsText(p.segments)
  }

  /** The printed form; the route is shown unless it is the local one. */
  function Display(p: Point): string {
    (if p.route.This? then "" else RouteText(p.route) + "::") + Postfix(p)
  }

  lemma {:induction false} TailAppend(a: seq<PointSeg>, b: seq<PointSeg>)
    ensures Tail(a + b) == Tail(a) + Tail(b)
  {
    if |a| == 0 {
      assert a + b == b;
    } else {
      assert (a + b)[0] == a[0] && (a + b)[1..] == a[1..] + b;
      TailAppend(a[1..], b);
    }
  }

  lemma SegmentsTextAppend(a: seq<PointSeg>, b: seq<PointSeg>)
    requires |a| > 0
    ensures SegmentsText(a + b) == SegmentsText(a) + Tail(b)
  {
    assert (a + b)[0] == a[0] && (a + b)[1..] == a[1..] + b;
    TailAppend(a[1..], b);
  }

  lemma SegmentsTextOfNone()
    ensures SegmentsText([]) == ROOT_TEXT
  {
  }

  lemma SegmentsTextOfOne(segment: PointSeg)
    ensures SegmentsText([segment]) == segment.Text()
    ensures Tail([segment]) == segment.Kind().PrecedingDelim(true) + segment.Text()
  {
    assert [segment][1..] == [];
    assert Tail([]) == "";
  }

  /** None of the kinds a segment of a point can have minds the filesystem root. */
  lemma DelimIgnoresFileroot(segment: PointSeg, postFileroot: bool)
    ensures segment.Kind().PrecedingDelim(postFileroot) == segment.Kind().PrecedingDelim(true)
  {
  }

  method ToStringImpl(self: Point, showRoute: bool) returns (rtn: string)
    ensures rtn == (if showRoute then RouteText(self.route) + "::" else "") + Postfix(self)
    ensures showRoute == !self.route.This? ==> rtn == Display(self)
  {
    hide Tail, SegmentsText, RouteText;
    rtn := "";
    if showRoute {
      rtn := rtn + RouteText(self.route);
      rtn := rtn + "::";
    }
    ghost var route := rtn;
    var postFileroot := false;
    if |self.segments| == 0 {
      rtn := rtn + "ROOT";
      assert Postfix(self) == ROOT_TEXT by {
        SegmentsTextOfNone();
      }
      return;
    }
    for i := 0 to |self.segments|
      invariant i == 0 ==> rtn == route
      invariant i > 0 ==> rtn == route + SegmentsText(self.segments[..i])
    {
      var segment := self.segments[i];
      if segment.FsRootDir? {
        postFileroot := true;
      }
      ghost var before := rtn;
      if i > 0 {
        rtn := rtn + segment.Kind().PrecedingDelim(postFileroot);
      }
      rtn := rtn + segment.Text();
      assert self.segments[..i + 1] == self.segments[..i] + [segment];
      SegmentsTextOfOne(segment);
      if i == 0 {
        assert self.segments[..1] == [segment];
      } else {
        SegmentsTextAppend(self.segments[..i], [segment]);
        DelimIgnoresFileroot(segment, postFileroot);
        assert rtn == before + (segment.Kind().PrecedingDelim(true) + segment.Text());
      }
    }
    assert self.segments[..|self.segments|] == self.segments;
  }

  function Pushed(p: Point, segment: PointSeg): Point {
    PointDef(p.route, p.segments + [segment])
  }

  /** The text of a segment by itself, and what stands before it in a longer point. */
  lemma SegmentIsPrinted(segment: PointSeg, name: string)
    ensures segment in {Space(name), Base(name), Dir(name), File(name), Version(name)} ==>
              segment.Text() == name
    ensures segment.FsRootDir? ==> segment.Text() == "/"
    ensures segment.Root? ==> segment.Text() == ""
    ensures segment.Kind().PrecedingDelim(true) ==
            if segment.Base? || segment.Version? || segment.FsRootDir? then ":" else ""
  {
  }

  /** The printed form, segment by segment: what a further segment of each kind appends to it. */
  lemma PrintOfPush(p: Point, segment: PointSeg)
    ensures |p.segments| == 0 ==> Postfix(p) == "ROOT" && Postfix(Pushed(p, segment)) == segment.Text()
    ensures |p.segments| > 0 ==>
              Postfix(Pushed(p, segment)) ==
              Postfix(p) + if segment.Base? || segment.Version? || segment.FsRootDir? then ":" + segment.Text()
                           else segment.Text()
  {
    hide Tail, SegmentsText, PointSeg.Text;
    SegmentsTextOfOne(segment);
    SegmentsTextOfNone();
    if |p.segments| == 0 {
      assert Pushed(p, segment).segments == [segment];
    } else {
      SegmentsTextAppend(p.segments, [segment]);
      assert "" + segment.Text() == segment.Text();
    }
  }

  // ---------------------------------------------------------------- well-formed points

  predicate MeshName(text: string) {
    |text| > 0 && ':' !in text && '/' !in text
  }

  predicate DirName(text: string) {
    |text| > 0 && text[|text| - 1] == '/' && '/' !in text[..|text| - 1]
  }

  predicate FileName(text: string) {
    |text| > 0 && '/' !in text
  }

  predicate WellFormedMeshSeg(segment: PointSeg, isVersion: string -> bool) {
    match segment
    case Base(base) => MeshName(base) && !isVersion(base)
    case Version(version) => MeshName(version) && isVersion(version)
    case _ => false
  }

  /** Directories, then at most one file. */
  predicate WellFormedFiles(segments: seq<PointSeg>) {
    |segments| == 0
    || (segments[0].Dir? && DirName(segments[0].dir) && WellFormedFiles(segments[1..]))
    || (segments[0].File? && FileName(segments[0].file) && |segments| == 1)
  }

  /** Bases and versions, then possibly a filesystem part. */
  predicate WellFormedTail(segments: seq<PointSeg>, isVersion: string -> bool) {
    |segments| == 0
    || (WellFormedMeshSeg(segments[0], isVersion) && WellFormedTail(segments[1..], isVersion))
    || (segments[0].FsRootDir? && WellFormedFiles(segments[1..]))
  }

  predicate WellFormed(p: Point, isVersion: string -> bool) {
    |p.segments| == 0
    || (p.segments[0].Space? && MeshName(p.segments[0].space) && WellFormedTail(p.segments[1..], isVersion))
  }

  // ---------------------------------------------------------------- reading back

  /** The index of the first `c` in `text`, or its length. */
  function IndexOf(text: string, c: char): (i: nat)
    ensures i <= |text|
    ensures c !in text[..i]
    ensures i < |text| ==> text[i] == c
  {
    if |text| == 0 || text[0] == c then 0
    else
      var i := IndexOf(text[1..], c) + 1;
      assert text[..i] == [text[0]] + text[1..][..i - 1];
      i
  }

  lemma {:induction false} IndexOfUnique(text: string, c: char, i: nat)
    requires i <= |text| && c !in text[..i]
    requires i < |text| ==> text[i] == c
    ensures IndexOf(text, c) == i
  {
    if i > 0 {
      assert text[0] in text[..i];
      assert text[1..][..i - 1] == text[..i][1..];
      IndexOfUnique(text[1..], c, i - 1);
    }
  }

  lemma IndexOfAfter(name: string, rest: string, c: char)
    requires c !in name
    requires |rest| > 0 ==> rest[0] == c
    ensures IndexOf(name + rest, c) == |name|
    ensures (name + rest)[..|name|] == name && (name + rest)[|name|..] == rest
  {
    assert (name + rest)[..|name|] == name;
    IndexOfUnique(name + rest, c, |name|);
  }

  function ReadFiles(text: string): seq<PointSeg>
    decreases |text|
  {
    if |text| == 0 then []
    else
      var i := IndexOf(text, '/');
      if i == |text| then [File(text)]
      else [Dir(text[..i + 1])] + ReadFiles(text[i + 1..])
  }

  function ReadTail(text: string, isVersion: string -> bool): seq<PointSeg>
    decreases |text|
  {
    if |text| == 0 then []
    else if |text| >= 2 && text[1] == '/' then [FsRootDir] + ReadFiles(text[2..])
    else
      var rest := text[1..];
      var i := IndexOf(rest, ':');
      var name := rest[..i];
      [if isVersion(name) then Version(name) else Base(name)] + ReadTail(rest[i..], isVersion)
  }

  /** Inverts the printer. */
  function ReadSegments(text: string, isVersion: string -> bool): seq<PointSeg> {
    if text == ROOT_TEXT then []
    else
      var i := IndexOf(text, ':');
      [Space(text[..i])] + ReadTail(text[i..], isVersion)
  }

  lemma ReadDirStep(dir: string, rest: string)
    requires DirName(dir)
    ensures ReadFiles(dir + rest) == [Dir(dir)] + ReadFiles(rest)
  {
    var name := dir[..|dir| - 1];
    assert dir + rest == name + ("/" + rest);
    IndexOfAfter(name, "/" + rest, '/');
    assert (dir + rest)[..|dir|] == dir && (dir + rest)[|dir|..] == rest;
  }

  lemma ReadFileStep(file: string)
    requires FileName(file)
    ensures ReadFiles(file) == [File(file)]
  {
    assert file[..|file|] == file;
    IndexOfUnique(file, '/', |file|);
  }

  lemma TailStep(segments: seq<PointSeg>)
    requires |segments| > 0
    ensures Tail(segments) == segments[0].Kind().PrecedingDelim(true) + segments[0].Text() + Tail(segments[1..])
    ensures segments[0].Kind().PrecedingDelim(true) == "" ==> Tail(segments) == segments[0].Text() + Tail(segments[1..])
    ensures segments == [segments[0]] + segments[1..]
  {
    assert "" + segments[0].Text() == segments[0].Text();
  }

  lemma {:induction false} ReadFilesInvertsTail(segments: seq<PointSeg>)
    requires WellFormedFiles(segments)
    ensures ReadFiles(Tail(segments)) == segments
  {
    hide ReadFiles;
    if |segments| == 0 {
      ReadNothing(_ => false);
    } else {
      var segment, rest := segments[0], segments[1..];
      TailStep(segments);
      if segment.Dir? {
        ReadFilesInvertsTail(rest);
        ReadDirStep(segment.dir, Tail(rest));
      } else {
        assert rest == [] && Tail(rest) == "";
        assert segment.file + "" == segment.file;
        ReadFileStep(segment.file);
      }
    }
  }

  lemma TailStartsWithColon(segments: seq<PointSeg>, isVersion: string -> bool)
    requires WellFormedTail(segments, isVersion)
    ensures |segments| > 0 ==> |Tail(segments)| > 0 && Tail(segments)[0] == ':'
    ensures |segments| == 0 ==> Tail(segments) == ""
  {
  }

  lemma ReadNothing(isVersion: string -> bool)
    ensures ReadFiles("") == [] && ReadTail("", isVersion) == []
  {
  }

  lemma ReadNameStep(name: string, rest: string, isVersion: string -> bool)
    requires MeshName(name)
    requires |rest| > 0 ==> rest[0] == ':'
    ensures ReadTail(":" + name + rest, isVersion) ==
            [if isVersion(name) then Version(name) else Base(name)] + ReadTail(rest, isVersion)
  {
    var text := ":" + name + rest;
    assert text[1..] == name + rest;
    assert text[1] == name[0] && name[0] in name;
    assert name[0] != '/';
    IndexOfAfter(name, rest, ':');
    assert ReadTail(text, isVersion) ==
           [if isVersion(name) then Version(name) else Base(name)] + ReadTail(text[1..][|name|..], isVersion);
  }

  lemma ReadRootDirStep(rest: string, isVersion: string -> bool)
    ensures ReadTail(":/" + rest, isVersion) == [FsRootDir] + ReadFiles(rest)
  {
    assert (":/" + rest)[2..] == rest;
  }

  lemma {:induction false} ReadTailInvertsTail(segments: seq<PointSeg>, isVersion: string -> bool)
    requires WellFormedTail(segments, isVersion)
    ensures ReadTail(Tail(segments), isVersion) == segments
  {
    hide ReadFiles, ReadTail;
    if |segments| == 0 {
      ReadNothing(isVersion);
    } else {
      var segment, rest := segments[0], segments[1..];
      TailStep(segments);
      if segment.FsRootDir? {
        ReadFilesInvertsTail(rest);
        assert ":" + "/" + Tail(rest) == ":/" + Tail(rest);
        ReadRootDirStep(Tail(rest), isVersion);
      } else {
        ReadTailInvertsTail(rest, isVersion);
        TailStartsWithColon(rest, isVersion);
        ReadNameStep(segment.Text(), Tail(rest), isVersion);
      }
    }
  }

  /** A space named ROOT alone prints exactly like the root point. */
  predicate LoneRootSpace(p: Point) {
    p.segments == [Space(ROOT_TEXT)]
  }

  lemma ReadSpaceStep(name: string, rest: string, isVersion: string -> bool)
    requires ':' !in name && (|rest| > 0 ==> rest[0] == ':')
    requires name != ROOT_TEXT || |rest| > 0
    ensures ReadSegments(name + rest, isVersion) == [Space(name)] + ReadTail(rest, isVersion)
  {
    hide ReadTail;
    var text := name + rest;
    IndexOfAfter(name, rest, ':');
    if |rest| == 0 {
      assert text == name;
    } else {
      assert text[|name|] == ':' && ':' !in ROOT_TEXT;
    }
  }

  lemma ReadInvertsPrint(p: Point, isVersion: string -> bool)
    requires WellFormed(p, isVersion) && !LoneRootSpace(p)
    ensures ReadSegments(Postfix(p), isVersion) == p.segments
  {
    hide Tail, ReadTail, WellFormedTail, ReadSegments;
    if |p.segments| == 0 {
      ReadRoot(isVersion);
    } else {
      var first, segments := p.segments[0], p.segments[1..];
      assert p.segments == [first] + segments;
      TailStartsWithColon(segments, isVersion);
      ReadTailInvertsTail(segments, isVersion);
      ReadSpaceStep(first.space, Tail(segments), isVersion);
    }
  }

  lemma ReadRoot(isVersion: string -> bool)
    ensures ReadSegments(ROOT_TEXT, isVersion) == []
  {
  }

  /**
  Unique readability: two well-formed points print alike exactly when they have
  the same segments, or one is the root and the other the lone space ROOT.
   */
  lemma UniqueReadability(a: Point, b: Point, isVersion: string -> bool)
    requires WellFormed(a, isVersion) && WellFormed(b, isVersion)
    ensures Postfix(a) == Postfix(b) <==>
            || a.segments == b.segments
            || (a.IsRoot() && LoneRootSpace(b))
            || (LoneRootSpace(a) && b.IsRoot())
  {
    assert LoneRootSpace(a) ==> Postfix(a) == ROOT_TEXT + Tail([]) == ROOT_TEXT;
    assert LoneRootSpace(b) ==> Postfix(b) == ROOT_TEXT + Tail([]) == ROOT_TEXT;
    if !LoneRootSpace(a) {
      ReadInvertsPrint(a, isVersion);
    }
    if !LoneRootSpace(b) {
      ReadInvertsPrint(b, isVersion);
    }
  }

  // ---------------------------------------------------------------- routes

  predicate WellFormedRoute(route: RouteSeg) {
    match route
    case Domain(domain) =>
      && |domain| > 0 && ':' !in domain && domain[0] != '<' && domain[0] != '['
      && domain != "GLOBAL" && domain != "LOCAL" && domain != "REMOTE"
    case Tag(tag) => ':' !in tag
    case StarRoute(star) => '>' !in star
    case _ => true
  }

  /** A well-formed point with its route; no space may look like the route of a star. */
  predicate WellRouted(p: Point, isVersion: string -> bool) {
    && WellFormed(p, isVersion)
    && WellFormedRoute(p.route)
    && (|p.segments| > 0 ==> p.segments[0].space[0] != '<')
  }

  lemma RouteTextsDecideRoutes(a: RouteSeg, b: RouteSeg)
    requires WellFormedRoute(a) && WellFormedRoute(b) && !a.This? && !b.This?
    requires RouteText(a) == RouteText(b)
    ensures a == b
  {
    var text := RouteText(a);
    if text[0] == '[' {
      assert a.Tag? && b.Tag?;
      assert text[1..|text| - 1] == a.tag && text[1..|text| - 1] == b.tag;
    } else if text[0] == '<' {
      assert a.StarRoute? && b.StarRoute?;
      assert text[2..|text| - 2] == a.star && text[2..|text| - 2] == b.star;
    } else if a.Domain? || b.Domain? {
      assert a.Domain? && b.Domain?;
    } else {
      assert "GLOBAL"[0] == 'G' && "LOCAL"[0] == 'L' && "REMOTE"[0] == 'R';
    }
  }

  /** Where the route of a text ends, if it has one. */
  function RouteEnd(text: string): Option<nat> {
    if |text| > 0 && text[0] == '<' then Some(IndexOf(text, '>') + 2)
    else
      var i := IndexOf(text, ':');
      if i + 1 < |text| && text[i + 1] == ':' then Some(i) else None
  }

  lemma RouteEndsAtRoute(route: RouteSeg, rest: string)
    requires WellFormedRoute(route) && !route.This?
    ensures RouteEnd(RouteText(route) + "::" + rest) == Some(|RouteText(route)|)
  {
    var name := RouteText(route);
    var text := name + "::" + rest;
    if route.StarRoute? {
      assert text == ("<<" + route.star) + (">>::" + rest);
      IndexOfAfter("<<" + route.star, ">>::" + rest, '>');
    } else {
      assert text == name + ("::" + rest);
      IndexOfAfter(name, "::" + rest, ':');
      assert text[|name| + 1] == ':';
    }
  }

  lemma LocalHasNoRoute(p: Point, isVersion: string -> bool)
    requires WellRouted(p, isVersion)
    ensures RouteEnd(Postfix(p)) == None
  {
    hide Tail, WellFormedTail;
    var text := Postfix(p);
    if |p.segments| == 0 {
      assert text == ROOT_TEXT && ':' !in ROOT_TEXT;
    } else {
      var name, segments := p.segments[0].space, p.segments[1..];
      TailStartsWithColon(segments, isVersion);
      IndexOfAfter(name, Tail(segments), ':');
      if |segments| > 0 {
        ColonThenName(segments, isVersion);
        assert text[|name| + 1] == Tail(segments)[1];
      }
    }
  }

  lemma ColonThenName(segments: seq<PointSeg>, isVersion: string -> bool)
    requires WellFormedTail(segments, isVersion) && |segments| > 0
    ensures |Tail(segments)| > 1 && Tail(segments)[1] != ':'
  {
    TailStep(segments);
    var text := segments[0].Text();
    assert text[0] in text;
  }

  /** The whole printed form, route included, tells two points apart, but for the root and the lone space ROOT. */
  lemma DisplayIsReadable(a: Point, b: Point, isVersion: string -> bool)
    requires WellRouted(a, isVersion) && WellRouted(b, isVersion)
    ensures Display(a) == Display(b) <==>
            && a.route == b.route
            && (a.segments == b.segments || (a.IsRoot() && LoneRootSpace(b)) || (LoneRootSpace(a) && b.IsRoot()))
  {
    hide RouteEnd, RouteText, Postfix, WellFormed;
    UniqueReadability(a, b, isVersion);
    RouteOfDisplay(a, isVersion);
    RouteOfDisplay(b, isVersion);
    if Display(a) == Display(b) && !a.route.This? {
      RouteTextsDecideRoutes(a.route, b.route);
    }
  }

  /** Route and postfix can be cut out of the printed form. */
  lemma RouteOfDisplay(p: Point, isVersion: string -> bool)
    requires WellRouted(p, isVersion)
    ensures var text := Display(p);
            match RouteEnd(text)
            case None => p.route.This? && Postfix(p) == text
            case Some(n) =>
              && !p.route.This? && n + 2 <= |text|
              && RouteText(p.route) == text[..n] && Postfix(p) == text[n + 2..]
  {
    hide RouteEnd, Postfix;
    if p.route.This? {
      LocalHasNoRoute(p, isVersion);
      assert "" + Postfix(p) == Postfix(p);
    } else {
      RouteEndsAtRoute(p.route, Postfix(p));
      var name := RouteText(p.route);
      assert (name + "::" + Postfix(p))[..|name|] == name;
      assert (name + "::" + Postfix(p))[|name| + 2..] == Postfix(p);
    }
  }

  // ---------------------------------------------------------------- reading routes

  predicate IsDigit(c: char) { '0' <= c <= '9' }

  predicate IsLower(c: char) { 'a' <= c <= 'z' }

  predicate SkewerChar(c: char) { c == '-' || IsDigit(c) || IsLower(c) || 'A' <= c <= 'Z' }

  predicate DomainChar(c: char) { c == '-' || c == '.' || IsDigit(c) || IsLower(c) }

  predicate StarChar(c: char) { SkewerChar(c) || c in "./_:()[]" }

  /** How far the text is of the class. */
  function RunLength(text: string, class_: char -> bool): (n: nat)
    ensures n <= |text|
    ensures forall i :: 0 <= i < n ==> class_(text[i])
    ensures n < |text| ==> !class_(text[n])
  {
    if |text| == 0 || !class_(text[0]) then 0
    else
      var n := RunLength(text[1..], class_) + 1;
      assert forall i :: 0 < i < n ==> text[i] == text[1..][i - 1];
      n
  }

  /** A non-empty run between an opening and a closing mark, with the length of it all. */
  function ReadBetween(text: string, open: string, class_: char -> bool, close: string): Option<(string, nat)> {
    if !(open <= text) then None
    else
      var n := RunLength(text[|open|..], class_);
      if n > 0 && close <= text[|open| + n..] then Some((text[|open|..|open| + n], |open| + n + |close|)) else None
  }

  /** The first of the route segments, other than the local one, that the text starts with, and its length. */
  function ReadOther(text: string): Option<(RouteSeg, nat)> {
    var star := ReadBetween(text, "<<", StarChar, ">>");
    var tag := ReadBetween(text, "#[", SkewerChar, "]");
    var domain := RunLength(text, DomainChar);
    if star.Some? then Some((StarRoute(star.value.0), star.value.1))
    else if tag.Some? && IsLower(text[2]) then Some((Tag(tag.value.0), tag.value.1))
    else if domain > 0 then Some((Domain(text[..domain]), domain))
    else if "GLOBAL" <= text then Some((Global, 6))
    else if "LOCAL" <= text then Some((Local, 5))
    else if "REMOTE" <= text then Some((Remote, 6))
    else None
  }

  /** Reads a whole text as a route: a dot comes first, and no route at all is the local one. */
  function ReadRoute(text: string): Option<RouteSeg> {
    if "." <= text then if |text| == 1 then Some(This) else None
    else
      match ReadOther(text)
      case Some((route, n)) => if n == |text| then Some(route) else None
      case None => if |text| == 0 then Some(This) else None
  }

  lemma {:induction false} RunLengthIs(text: string, class_: char -> bool, n: nat)
    requires n <= |text| && forall i :: 0 <= i < n ==> class_(text[i])
    requires n < |text| ==> !class_(text[n])
    ensures RunLength(text, class_) == n
  {
  }

  lemma ReadStar(star: string)
    ensures ReadRoute("<<" + star + ">>") == Some(StarRoute(star)) <==>
            |star| > 0 && forall i :: 0 <= i < |star| ==> StarChar(star[i])
  {
    var text := "<<" + star + ">>";
    assert text[2..] == star + ">>" && text[0] == '<';
    if |star| > 0 && forall i :: 0 <= i < |star| ==> StarChar(star[i]) {
      ReadBetweenIs(star, "<<", StarChar, ">>");
      hide ReadBetween;
      assert ReadOther(text) == Some((StarRoute(star), |text|));
    }
    if ReadRoute(text) == Some(StarRoute(star)) {
      var between := ReadBetween(text, "<<", StarChar, ">>");
      assert between.Some? && between.value.0 == star;
    }
  }

  lemma ReadBetweenIs(inner: string, open: string, class_: char -> bool, close: string)
    requires |inner| > 0 && forall i :: 0 <= i < |inner| ==> class_(inner[i])
    requires |close| > 0 && !class_(close[0])
    ensures ReadBetween(open + inner + close, open, class_, close) == Some((inner, |open| + |inner| + |close|))
  {
    var text := open + inner + close;
    assert text[|open|..] == inner + close;
    RunLengthIs(inner + close, class_, |inner|);
    assert text[|open|..|open| + |inner|] == inner && text[|open| + |inner|..] == close;
  }

  lemma ReadDomain(domain: string)
    ensures ReadRoute(domain) == Some(Domain(domain)) <==>
            |domain| > 0 && domain[0] != '.' && forall i :: 0 <= i < |domain| ==> DomainChar(domain[i])
  {
    assert domain[..|domain|] == domain;
    if |domain| > 0 && forall i :: 0 <= i < |domain| ==> DomainChar(domain[i]) {
      RunLengthIs(domain, DomainChar, |domain|);
      assert DomainChar(domain[0]);
    }
  }

  lemma ReadTag(tag: string)
    ensures ReadRoute("[" + tag + "]").None?
  {
    var text := "[" + tag + "]";
    assert text[0] == '[';
    RunLengthIs(text, DomainChar, 0);
  }

  lemma ReadNamed(route: RouteSeg)
    requires route in {Global, Local, Remote}
    ensures ReadRoute(RouteText(route)) == Some(route)
  {
    var text := RouteText(route);
    assert text[0] in "GLR";
    RunLengthIs(text, DomainChar, 0);
    hide RunLength;
    assert "REMOTE"[0] == 'R' && "LOCAL"[0] == 'L' && "GLOBAL"[0] == 'G';
  }

  /**
  Exactly which routes are read back as they are printed: the local one and the
  three named ones, domains and star keys of the characters that are read, except
  domains that begin with a dot, and no tags.
   */
  lemma RouteReadsBack(route: RouteSeg)
    ensures ReadRoute(RouteText(route)) == Some(route) <==>
            match route
            case Domain(domain) =>
              |domain| > 0 && domain[0] != '.' && forall i :: 0 <= i < |domain| ==> DomainChar(domain[i])
            case StarRoute(star) => |star| > 0 && forall i :: 0 <= i < |star| ==> StarChar(star[i])
            case Tag(_) => false
            case _ => true
  {
    hide ReadOther;
    match route {
      case Domain(domain) => ReadDomain(domain);
      case StarRoute(star) => ReadStar(star);
      case Tag(tag) => ReadTag(tag);
      case This => assert RouteText(route) == ".";
      case _ => ReadNamed(route);
    }
  }

  /** The printed names of the routes without text, and of the root. */
  lemma RouteNames(tag: string, route: RouteSeg)
    ensures Display(PointDef(Global, [])) == "GLOBAL::ROOT"
    ensures Display(PointDef(Local, [])) == "LOCAL::ROOT"
    ensures Display(PointDef(Remote, [])) == "REMOTE::ROOT"
    ensures Display(PointDef(Tag(tag), [])) == "[" + tag + "]::ROOT"
    ensures Display(PointDef(This, [])) == "ROOT"
  {
    assert Display(PointDef(Tag(tag), [])) == ("[" + tag + "]") + "::" + "ROOT";
  }

  // ---------------------------------------------------------------- string and segment views

  lemma {:induction false} FilesTextIsTail(segments: seq<PointSeg>)
    requires WellFormedFiles(segments)
    ensures Tail(segments) == FileTexts(segments)
    ensures forall i :: 0 <= i < |segments| ==> segments[i].Kind().IsFilesystemSeg() && !segments[i].FsRootDir?
  {
    if |segments| > 0 {
      TailStep(segments);
      assert WellFormedFiles(segments[1..]);
      FilesTextIsTail(segments[1..]);
      assert forall i :: 0 < i < |segments| ==> segments[i] == segments[1..][i - 1];
    }
  }

  /** The length of the mesh part of a well-formed tail. */
  function MeshLength(segments: seq<PointSeg>): (n: nat)
    ensures n <= |segments|
  {
    if |segments| == 0 || segments[0].FsRootDir? then 0 else 1 + MeshLength(segments[1..])
  }

  lemma {:induction false} SplitTail(segments: seq<PointSeg>, isVersion: string -> bool)
    requires WellFormedTail(segments, isVersion)
    ensures var n := MeshLength(segments);
            && (forall i :: 0 <= i < n ==> WellFormedMeshSeg(segments[i], isVersion))
            && (n < |segments| ==> segments[n].FsRootDir? && WellFormedFiles(segments[n + 1..]))
  {
    if |segments| > 0 && !segments[0].FsRootDir? {
      SplitTail(segments[1..], isVersion);
      var n := MeshLength(segments);
      assert forall i :: 0 < i < n ==> segments[i] == segments[1..][i - 1];
      assert segments[1..][n - 1..] == segments[n..];
      if n < |segments| {
        assert segments[1..][n..] == segments[n + 1..];
      }
    }
  }

  lemma {:induction false} NonFileParentCuts(p: Point, n: nat)
    requires n <= |p.segments|
    requires forall i :: n <= i < |p.segments| ==> p.segments[i].Kind().IsFilesystemSeg()
    requires n > 0 ==> !p.segments[n - 1].Kind().IsFilesystemSeg()
    ensures NonFileParent(p) == Prefix(p, n)
    decreases |p.segments|
  {
    if |p.segments| == n {
      assert p.segments[..n] == p.segments;
    } else {
      NonFileParentCuts(p.Parent().value, n);
      assert p.Parent().value.segments[..n] == p.segments[..n];
    }
  }

  lemma {:induction false} MeshHasNoFileText(segments: seq<PointSeg>)
    requires forall i :: 0 <= i < |segments| ==> !segments[i].Kind().IsFilesystemSeg()
    ensures FileTexts(segments) == ""
  {
    if |segments| > 0 {
      MeshHasNoFileText(segments[1..]);
    }
  }

  /** Where a well-formed point splits into its mesh part and its file part. */
  lemma SplitPoint(p: Point, isVersion: string -> bool) returns (n: nat)
    requires WellFormed(p, isVersion) && !p.IsRoot()
    ensures 0 < n <= |p.segments|
    ensures forall i :: 0 <= i < n ==> !p.segments[i].Kind().IsFilesystemSeg()
    ensures n < |p.segments| ==> p.segments[n].FsRootDir? && WellFormedFiles(p.segments[n + 1..])
    ensures n < |p.segments| <==> HasFilesystem(p)
    ensures NonFileParent(p) == Prefix(p, n)
  {
    var tail := p.segments[1..];
    SplitTail(tail, isVersion);
    n := 1 + MeshLength(tail);
    forall i | 0 <= i < n
      ensures !p.segments[i].Kind().IsFilesystemSeg()
    {
      if i > 0 {
        assert p.segments[i] == tail[i - 1];
      }
    }
    if n < |p.segments| {
      assert tail[n - 1..][1..] == p.segments[n + 1..];
      assert tail[n..] == p.segments[n + 1..];
      FilesTextIsTail(p.segments[n + 1..]);
      forall i | n <= i < |p.segments|
        ensures p.segments[i].Kind().IsFilesystemSeg()
      {
        if i > n {
          assert p.segments[i] == p.segments[n + 1..][i - n - 1];
        }
      }
    }
    NonFileParentCuts(p, n);
  }

  lemma FilePartText(files: seq<PointSeg>)
    requires WellFormedFiles(files)
    ensures FileTexts([FsRootDir] + files) == "/" + FileTexts(files)
    ensures Tail([FsRootDir] + files) == ":" + FileTexts([FsRootDir] + files)
  {
    var part := [FsRootDir] + files;
    assert part[0] == FsRootDir && part[1..] == files;
    TailStep(part);
    FilesTextIsTail(files);
    assert ":" + "/" + FileTexts(files) == ":" + ("/" + FileTexts(files));
  }

  /**
  For a point with a filesystem part the printed form is that of its mesh part,
  a colon and the file path, and the file path can be cut off its mesh part.
   */
  lemma PrintIsParentAndFilepath(p: Point, isVersion: string -> bool)
    requires WellFormed(p, isVersion) && HasFilesystem(p)
    ensures FilepathOf(p).Some?
    ensures Postfix(p) == Postfix(NonFileParent(p)) + ":" + FilepathOf(p).value
    ensures TruncateFilepath(p, NonFileParent(p)) == Ok(FilepathOf(p).value)
    ensures WellFormedMesh(NonFileParent(p))
  {
    hide WellFormedTail, WellFormedFiles, SegmentsText, Tail, FileTexts, NonFileParent;
    assert !p.IsRoot();
    var n := SplitPoint(p, isVersion);
    var mesh, files := p.segments[..n], p.segments[n + 1..];
    assert p.segments == mesh + ([FsRootDir] + files);
    SegmentsTextAppend(mesh, [FsRootDir] + files);
    FileTextsAppend(mesh, [FsRootDir] + files);
    MeshHasNoFileText(mesh);
    FilePartText(files);
    assert FileTexts(p.segments) == "/" + FileTexts(files);
  }

  predicate WellFormedMesh(p: Point) {
    |p.segments| > 0 && forall i :: 0 <= i < |p.segments| ==> !p.segments[i].Kind().IsFilesystemSeg()
  }

  lemma NoFilesystemNoFilepath(p: Point, isVersion: string -> bool)
    requires WellFormed(p, isVersion)
    ensures HasFilesystem(p) <==> FilepathOf(p).Some?
    ensures !HasFilesystem(p) ==> NonFileParent(p) == p
  {
    if HasFilesystem(p) {
      PrintIsParentAndFilepath(p, isVersion);
    } else if !p.IsRoot() {
      var n := SplitPoint(p, isVersion);
      assert p.segments[..n] == p.segments;
      MeshHasNoFileText(p.segments);
    }
  }

  /** The file path is cut off exactly the non-file parent, and only of a point with a filesystem part. */
  lemma TruncateFilepathIff(p: Point, parent: Point, isVersion: string -> bool)
    requires WellFormed(p, isVersion)
    ensures parent != NonFileParent(p) ==> TruncateFilepath(p, parent) == Err(NotTheParent)
    ensures parent == NonFileParent(p) && !HasFilesystem(p) ==> TruncateFilepath(p, parent) == Err(NoFilepath)
    ensures parent == NonFileParent(p) && HasFilesystem(p) ==>
              FilepathOf(p).Some? && TruncateFilepath(p, parent) == Ok(FilepathOf(p).value)
  {
    NoFilesystemNoFilepath(p, isVersion);
  }

  // ---------------------------------------------------------------- pushing segments

  predicate WellFormedText(segment: PointSeg, isVersion: string -> bool) {
    match segment
    case Space(space) => MeshName(space)
    case Base(_) => WellFormedMeshSeg(segment, isVersion)
    case Version(_) => WellFormedMeshSeg(segment, isVersion)
    case Dir(dir) => DirName(dir)
    case File(file) => FileName(file)
    case _ => true
  }

  lemma {:induction false} FilesPush(segments: seq<PointSeg>, segment: PointSeg, isVersion: string -> bool)
    requires WellFormedFiles(segments) && WellFormedText(segment, isVersion)
    ensures WellFormedFiles(segments + [segment]) <==>
            (segment.Dir? || segment.File?) && (|segments| > 0 ==> !segments[|segments| - 1].File?)
  {
    var longer := segments + [segment];
    if |segments| == 0 {
      assert longer[1..] == [];
    } else {
      assert longer[0] == segments[0] && longer[1..] == segments[1..] + [segment];
      if segments[0].Dir? {
        FilesPush(segments[1..], segment, isVersion);
      }
    }
  }

  lemma {:induction false} TailPush(segments: seq<PointSeg>, segment: PointSeg, isVersion: string -> bool)
    requires WellFormedTail(segments, isVersion) && WellFormedText(segment, isVersion)
    ensures WellFormedTail(segments + [segment], isVersion) <==>
            if FsRootDir in segments
            then (segment.Dir? || segment.File?) && !segments[|segments| - 1].File?
            else segment.Base? || segment.Version? || segment.FsRootDir?
  {
    var longer := segments + [segment];
    if |segments| == 0 {
      assert longer[1..] == [];
    } else {
      assert longer[0] == segments[0] && longer[1..] == segments[1..] + [segment];
      if segments[0].FsRootDir? {
        FilesPush(segments[1..], segment, isVersion);
      } else {
        TailPush(segments[1..], segment, isVersion);
        assert FsRootDir in segments <==> FsRootDir in segments[1..];
      }
    }
  }

  /**
  When pushing a well-formed segment yields a well-formed point.  PushSegment
  accepts more: bases after a file part, anything after a final file.
   */
  lemma PushKeepsWellFormed(p: Point, segment: PointSeg, isVersion: string -> bool)
    requires WellFormed(p, isVersion) && WellFormedText(segment, isVersion)
    ensures PushSegment(p, segment).Ok? && WellFormed(PushSegment(p, segment).value, isVersion) <==>
            if p.IsRoot() then segment.Space?
            else if HasFilesystem(p)
            then (segment.Dir? || segment.File?) && !p.segments[|p.segments| - 1].File?
            else segment.Base? || segment.Version?
  {
    if p.IsRoot() {
      assert (p.segments + [segment])[1..] == [];
    } else {
      var tail := p.segments[1..];
      assert (p.segments + [segment])[1..] == tail + [segment];
      assert HasFilesystem(p) <==> FsRootDir in tail;
      TailPush(tail, segment, isVersion);
    }
  }
}
