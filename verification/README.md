# Cosmic fabric: a verified model

This project models how the cosmic fabric addresses, finds, reaches and guards
its particles, and proves what those mechanisms promise:

- **Points** (`Points.dfy`, `PointPrinter.dfy`): the prefix order on points,
  the bundle and file projections, and the printed form with its
  kind-dependent delimiters. The main result is unique readability.
- **Selectors** (`Selectors.dfy`, `SelectorQuery.dfy`): the recursive matcher
  with its inclusive, trailing `**` and middle `**` rules, its two-cursor form,
  closed forms for all selectors, and the split into a query root and the hops
  of the sub-select.
- **Stars** (`Stars.dfy`, `Fabric.dfy`, `Topology.dfy`): how one star handles a
  wave or transport; the fabric of all stars as a step system with any
  interleaving; conservation, safety, bounded runs and independence from the
  interleaving for every constellation; and delivery in hub constellations,
  starting from the star templates.
- **Ripples** (`Ripples.dfy`): the flood of a ripple to all stars is the set of
  simple paths of the constellation.
- **Provisioning** (`Provisioning.dfy`): particles are provisioned parent
  first, by one locator and by any number of locators at once.
- **Access** (`Access.dfy`, `RegistryAccess.dfy`): folding grants into
  permissions and privileges, the registry's walk from a point to the root, and
  the recursion along those who granted: its result, and exactly when it ends.
- **Searching** (`Searching.dfy`): what a select reports, level by level, and
  exactly when that is the set of matching particles.

Run `dafny verify dfyconfig.toml` to check everything.

## How the model relates to the program

Loops and objects that are changed in place are methods and classes, each
proved against a function on values; the properties are lemmas about those
functions and about step systems built from them. The same functions drive the
single-star methods and the fabric: `FromHyperwayResult`, `ToHyperwayResult` and
`ShardTo` in `Stars.dfy` are what `HyperStar` is proved to do and what a step of
`Fabric.dfy` applies.

Parameters stand for what lies outside: the semver test on a text
(`isVersion`), version requirements and patterns on specifics (functions to
`bool`), the answers of the locator (`Step.AnswerNext`, `Locator`), the host
that a provision request ends up on (`Hosts`), who owns what and which hierarchy
is recorded (`Registry`), and what the database tests of a specific (`Coarse`).
Every result holds for all of them.

A run of the fabric lets a star serve any one of its pending calls, the
hyperway deliver any one hop, or the locator answer any one lookup, with any
answer. Channels are reliable and unordered.

`WellFormed` in `PointPrinter.dfy` describes the points that text can name: a
space, then bases and versions, then possibly a filesystem root, directories
that end in a slash and at most one final file; names are not empty and hold
neither `:` nor `/`, and a base is not the text of a version. `WellRouted` adds the
texts that routes can have. `Registered` in `Searching.dfy` takes every particle
but those at the top to have a registered parent. That is left to those who
register: `register` does not test it
(`platform/registry/postgres/src/registry.rs:224-292`).

Where comments and code disagree the model follows the code:

- `space/src/selector.rs:450-451` says that `space.org:**:users` reaches
  `space.org:many:silly:dirs:users`. `CommentedExampleFails` shows that it does
  not. It reaches a path that ends in `users` only under the exact condition of
  `RecursiveThenPlainMatches`: the hop behind `**` is tried on a segment that is
  then skipped, and the last segment is left to an inclusive `**`.
- Kind erasure does not keep matches in general. `ErasureBehindMiddleRecursive`
  gives the exact condition for every selector with one `**`, plain hops in front
  of it and behind it.
- The parser of selectors reads a version as a base and a directory without its
  slash (`space/src/parse/mod.rs:5676-5701`), so the query root of a selector need
  not be an ancestor of what it matches (`VersionNamedAsBase`). It prints like
  one (`QueryRootPrintsAsPrefix`), and that is what the registry compares.
- A select looks only below its query root, does not match what it finds once its
  hops have run out, passes over what the where clause of a `**` stops, and fails
  at a filesystem root, such as every bundle registers. `SearchIsExactIff` says for
  every selector when the call ends well with exactly the matching particles,
  `RecursiveSearchFinds` and `PlainSearchFinds` what that comes to. Registries on
  which it does not are given by `RootDirStopsRecursive`, `RootDirStopsPlain`,
  `ClauseMissesMatch` and `SearchOvershoots`.
- Asking for access along those who granted does not end for two particles that
  grant to each other (`MutualGrantsNeverEnd`). `EndsIffRankedFrom` says for
  each particle exactly when it ends.
- Two provisioning tasks on one point can both succeed with different stars, of
  which the registry keeps the later (`TwoTasksDisagree`). `AloneAnswersStand`
  gives a condition under which every answer stays the record, and
  `TwoAtWorkCanDisagree` shows that where it fails, with both tasks unanswered,
  some run goes wrong.
- `push_segment` refuses the filesystem root itself unless the point already
  has one, and takes segments behind a final file. `PushKeepsWellFormed` gives the
  exact condition under which a push yields a well-formed point.
- A lone space named `ROOT` prints like the root point. It is the only clash,
  and `UniqueReadability` says so.
- A tag route is printed as `[tag]` (`space/src/point.rs:200-202`) while the parser
  reads `#[tag]` (`space/src/parse/mod.rs:402-405`); the model prints as the code does.
- In the registry's `access` the hyperuser gets `Super` when it owns the point
  and `SuperOwner` when it does not, and And masks count whoever granted them.

## Model

| member | source | states |
|---|---|---|
| Points.IsParentOf | space/src/point.rs:1052-1067 | true exactly for the points on the path from the root to the other point, itself included |
| Points.AncestorIffParentSteps | space/src/point.rs:984-994 | one point is an ancestor of another iff it is reached from it by some number of parent steps |
| Points.AncestorIsPartialOrder | space/src/point.rs:1052-1067 | the order is reflexive, antisymmetric and transitive, and the ancestors of one point form a chain |
| Points.RelativeSegs | space/src/point.rs:1086-1118 | on success one text for each segment behind the parent, index by index; the routes, the lengths and the segments decide success and each of the three errors |
| Points.RelativeSegsCompose | space/src/point.rs:1086-1118 | along a chain of three points relative segments concatenate |
| Points.IsArtifactBundlePart | space/src/point.rs:1274-1281 | true iff some segment is a version, iff the point can be cut at a bundle |
| Points.ToBundleIsLongest | space/src/point.rs:1234-1256 | cutting at a bundle succeeds iff the point has a bundle iff some segment is a version, and yields the longest prefix that ends in one |
| Points.ToBundleIdempotent | space/src/point.rs:1234-1244 | cutting a bundle again changes nothing, and a bundle is an ancestor of the point |
| Points.Truncate | space/src/point.rs:1409-1426 | yields the prefix that ends in the first segment of the kind, or an error exactly when no segment has the kind |
| Points.KindsNameSegments | space/src/point.rs:327-338 | each kind a point can be cut by is the kind of one sort of segment |
| Points.TruncateVersionIsShortest | space/src/point.rs:1409-1426 | truncating to a version succeeds iff there is one and yields the shortest prefix that ends in one |
| Points.BundleCutsCoincide | space/src/point.rs:1234-1426 | the two ways to cut at a bundle agree iff the point has exactly one version segment |
| Points.Filepath | space/src/point.rs:1370-1390 | the concatenated texts of the filesystem segments, or none when that is empty |
| Points.PushThenPop | space/src/point.rs:1303-1367 | a push is accepted iff the segment is mesh or root or the point already has a filesystem root, appends the segment and nothing else, and is undone by pop and by parent; it never gives a point its filesystem part |
| PointPrinter.ToStringImpl | space/src/point.rs:1479-1504 | the loop over segments prints the route when asked and then the postfix; with the route shown unless local it is the displayed form |
| PointPrinter.PrintOfPush | space/src/point.rs:1479-1508 | the root prints ROOT; one more segment appends its text, behind a colon iff it is a base, a version or the filesystem root |
| PointPrinter.SegmentIsPrinted | space/src/point.rs:228-250 | the texts of the segments and the delimiter in front of each |
| PointPrinter.ReadInvertsPrint | space/src/point.rs:1479-1508 | a reader recovers the segments of every well-formed point from its printed form, except for the lone space ROOT |
| PointPrinter.UniqueReadability | space/src/point.rs:228-250 | two well-formed points print alike iff they have the same segments, or one is the root and the other the lone space ROOT |
| PointPrinter.DisplayIsReadable | space/src/point.rs:1511-1519 | the displayed form, route included, is the same for two points iff they have the same route and the same segments, up to the one clash of ROOT |
| PointPrinter.RouteOfDisplay | space/src/point.rs:195-211 | route and postfix of a point can be cut out of its displayed form |
| PointPrinter.RouteReadsBack | space/src/parse/mod.rs:382-427 | a reader of routes that follows the parser gets a displayed route back iff it is not a tag and not a domain that starts with a dot, for the texts that routes can have |
| PointPrinter.RouteNames | space/src/point.rs:195-211 | the displayed names of the routes, and the root point as ROOT |
| PointPrinter.PrintIsParentAndFilepath | space/src/point.rs:1370-1399 | with a filesystem part the printed form is that of the non-file parent, a colon and the file path, and the non-file parent is pure mesh |
| PointPrinter.NoFilesystemNoFilepath | space/src/point.rs:1370-1399 | a well-formed point has a file path iff it has a filesystem part, and is its own non-file parent otherwise |
| PointPrinter.TruncateFilepathIff | space/src/point.rs:1070-1083 | the file path is cut off the non-file parent and no other point, if there is a filesystem part; the two failures have their own errors |
| PointPrinter.PushKeepsWellFormed | space/src/point.rs:1353-1367 | for every well-formed point, the root included, exactly which pushes of well-formed segments are accepted and leave a well-formed point |
| Selectors.AcceptsEveryKindIsExact | space/src/selector.rs:54-68 | a syntactic test decides whether a kind selector accepts all kinds |
| Selectors.KindSelectorAccepts | space/src/selector.rs:54-68 | a kind selector matches a kind iff each of base, sub kind and specific is open or names what the kind has; `Never` accepts nothing |
| Selectors.ExactKindAccepts | space/src/selector.rs:172-183 | what the selectors made from one kind accept: exactly the kinds of that base and sub kind, or of that base, and of a specific that the pattern takes |
| Selectors.SegmentSelectorAccepts | space/src/selector.rs:628-664 | a named segment is matched by equal texts, a version by the same version, a requirement by the versions that meet it, the wildcards by all; which of them are recursive |
| Selectors.HopAccepts | space/src/selector.rs:887-893 | a hop tests the segment, and the kind where it is known |
| Selectors.Refinement | space/src/selector.rs:312-474 | the matcher that clones and drops heads, whose `expect`s never fail, equals one with two cursors over unchanged sequences |
| Selectors.MatchesIffClosedForm | space/src/selector.rs:395-474 | for every selector and hierarchy: matching without recursion, through the cursor reached after each segment |
| Selectors.PlainSelectorMatches | space/src/selector.rs:400-474 | without recursive hops: all positions match, and there are as many hops as segments or the hop on the last segment is inclusive |
| Selectors.TrailingRecursiveMatches | space/src/selector.rs:400-474 | with a single, trailing `**`: earlier hops match by position and `**` the last segment; a shorter hierarchy needs an inclusive hop |
| Selectors.RecursiveOfKindMatches | hyperspace/src/driver/star.rs:123-128 | `**` of one base and sub kind alone matches exactly the hierarchies whose last segment has both |
| Selectors.MiddleRecursiveMatches | space/src/selector.rs:433-458 | a leading `**` that is not last skips to behind the least segment, short of the last, that the next hop matches, and goes on with that hop; without one the `**` must be inclusive and match the last segment |
| Selectors.PlainPrefixMatches | space/src/selector.rs:400-474 | hops in front of the first recursive one match by position and leave the rest of the selector with the rest of the hierarchy; a hierarchy that ends before needs an inclusive hop at its end |
| Selectors.RecursiveThenPlainMatches | space/src/selector.rs:433-458 | exactly when any plain hops, a `**` and one plain hop match, in contrast to the comment there |
| Selectors.CommentedExampleFails | space/src/selector.rs:448-454 | the selector of that comment does not match the path of that comment, whatever the kinds |
| Selectors.KindErasureIsMonotone | space/src/selector.rs:1109-1123 | dropping kinds keeps a match when each hop behind a `**` accepts every kind, in particular when the only `**` is last |
| Selectors.LeadingRecursiveMatches | space/src/selector.rs:433-458 | a `**` with plain hops behind it: it runs to the least segment, short of the last, that the next hop matches, and the plain hops must match what is left by position |
| Selectors.ErasureMovesChoice | space/src/selector.rs:275-287 | a `**` with plain hops behind it, some run of which segments of known kinds match, and the first of which does not take every kind, matches a hierarchy and not its erasure |
| Selectors.ErasureDefeatsInclusive | space/src/selector.rs:433-441 | the same for an inclusive `**` of some kind, by a hierarchy that only the `**` matches |
| Selectors.ErasureOfTail | space/src/selector.rs:275-474 | for `**` and any plain hops, or any one hop, behind it: erasure keeps all matches iff the next hop is recursive, accepts every kind or matches no segment, or no hierarchy with known kinds matches, which the hops decide one by one |
| Selectors.ErasureBehindPlainHops | space/src/selector.rs:275-474 | plain hops in front change nothing about whether erasure keeps all matches, unless one of them matches nothing |
| Selectors.ErasureBehindMiddleRecursive | space/src/selector.rs:275-474 | for every selector with one `**`, any plain hops in front of and behind it: erasure keeps all matches iff the `**` is last, a hop in front matches nothing, or the rest keeps its matches |
| Selectors.ErasureWithoutChoices | space/src/selector.rs:275-474 | without recursive hops, and wherever the hops behind them take every kind, erasure keeps all matches |
| SelectorQuery.QueryRootSegs | space/src/selector.rs:350-374 | the query root names the longest run of leading hops that are exact and not inclusive, hop by hop |
| SelectorQuery.QueryRoot | space/src/selector.rs:350-374 | the loop computes that run, as a point with the local route |
| SelectorQuery.SubSelectHops | space/src/selector.rs:376-383 | the removal loop drops exactly the hops of the query root and never runs out of hops |
| SelectorQuery.QuerySplit | space/src/selector.rs:350-383 | a selector matches iff the first segments match the query-root hops, kinds included, and the sub-select matches the rest |
| SelectorQuery.MatchesLieBelowQueryRoot | space/src/selector.rs:350-383 | whatever a selector matches has the texts of the query root as those of its first segments |
| SelectorQuery.TextsDecideSegments | space/src/selector.rs:687-700 | among well-formed points the texts that an exact hop compares decide the segments |
| SelectorQuery.RelativeSegsDecide | space/src/point.rs:1086-1118 | between well-formed points the relative segments decide the point: the same list below the same parent is the same point |
| SelectorQuery.QueryRootPrintsAsPrefix | space/src/parse/mod.rs:6420-6469 | for every selector of the form the parser yields, versions read as bases and directories without slash included, the query root prints like a prefix of each well-formed point that matches |
| SelectorQuery.QueryRootIsAncestor | space/src/selector.rs:350-374 | the query root of a selector that matches a well-formed local point is an ancestor of it iff the query root is well-formed |
| SelectorQuery.VersionNamedAsBase | space/src/parse/mod.rs:5676-5683 | a selector that names a version, as it is parsed, matches its bundle though the query root is no ancestor of it |
| SelectorQuery.PointMatchIsErased | space/src/selector.rs:298-309 | matching a bare point is matching its hierarchy with the kinds dropped; where choices ignore kinds it holds of every point whose hierarchy matches |
| Stars.HyperStar.constructor | hyperspace/src/star.rs:660-665 | a built star lists exactly its forwarding neighbours, each once |
| Stars.ForwarderKinds | space/src/kind.rs:563-574 | all stars relay but the central star and the machine star |
| Stars.HyperStar.ToHyperway | hyperspace/src/star.rs:1133-1173 | hands the transport to the star itself, else to the neighbour it is for, else to the only forwarder; with no or several forwarders it fails with its own error and sends nothing |
| Stars.HyperStar.Forward | hyperspace/src/star.rs:989-995 | only forwarders forward |
| Stars.HyperStar.FromHyperway | hyperspace/src/star.rs:942-986 | counts the hop and drops the transport from 255 on; below, it injects what is for this star, and passes the rest on if the star relays or fails |
| Stars.HyperStar.ToGravity | hyperspace/src/star.rs:1000-1027 | a directed wave to `GLOBAL::executor` is handled at once, every other wave is queued for sharding, and never both |
| Stars.HyperStar.Shard | hyperspace/src/star.rs:1078-1118 | a located wave is injected here or carried to its star with no hops; without a location nothing is sent |
| Stars.FateFrom | hyperspace/src/star.rs:942-995 | in any constellation a transport keeps its recipient and wave, and if delivered it is at the star it is for, with more hops than before and at most 255 |
| Stars.Trail | hyperspace/src/star.rs:952-960 | a transport is accepted at most 255 times, whatever the connections |
| Stars.DeliveredIffRelayed | hyperspace/src/star.rs:942-1173 | a transport is delivered iff following the relaying stars reaches its recipient within the hop limit |
| Stars.TrailCountsHops | space/src/wave.rs:2623-2625 | the hop counter is the number of stars that accepted the transport; a transport lost to the limit has used all 255 |
| Stars.PingPong | hyperspace/src/star.rs:954-960 | two forwarders that only know each other bounce a transport until the limit drops it, so the bound is reached |
| Stars.RoutesAreShort | hyperspace/src/star.rs:1133-1173 | a route that arrives meets no star twice and takes fewer relays than there are stars |
| Stars.HopLimitStopsOnlyLoops | hyperspace/src/star.rs:954-960 | among at most 255 stars the hop limit stops no transport whose relaying would arrive |
| Fabric.StepConserves | hyperspace/src/star.rs:942-1118 | every step moves each wave from one place to one place |
| Fabric.StepRecords | hyperspace/src/star.rs:942-1118 | what a step leaves in the books: submissions and answers as they are made, nothing taken back, one parcel moved |
| Fabric.StepKeepsInv | hyperspace/src/star.rs:942-1173 | every step keeps conservation, transports with legal hops and a located recipient, and correct injections |
| Fabric.EveryRunIsSafe | hyperspace/src/star.rs:942-1173 | after any run each submitted wave is in exactly one place, waves are injected only at a star that the locator gave for their recipient, and transports only at the star they are for with 1 to 255 hops |
| Fabric.ExecutorWavesAreHandled | hyperspace/src/star.rs:1000-1027 | over whole runs only directed waves to `GLOBAL::executor` are handled globally; such a wave is never sharded, located, carried, injected or lost, and at rest all of them have been handled |
| Fabric.HopsNeverWrap | space/src/wave.rs:2623-2625 | in any run the 16-bit hop counter never wraps |
| Fabric.RunsAreBounded | hyperspace/src/star.rs:942-1173 | in any constellation a run takes at most a fixed number of steps for each wave submitted |
| Fabric.ServingFollowsFate | hyperspace/src/star.rs:942-995 | serving a transport leaves its fate unchanged or carries it out |
| Fabric.EndingSpelledOut | hyperspace/src/star.rs:1000-1173 | how a wave given to a star ends: handled, lost for want of a location, injected here, or carried to a neighbour in one hop; farther stars get it in 1 to 255 hops or not at all |
| Fabric.RunEndings | hyperspace/src/star.rs:942-1173 | the endings of all waves after a run are those before it and those of the waves submitted |
| Fabric.EveryInterleavingEndsAlike | hyperspace/src/star.rs:942-1173 | two runs with the same submissions, in any order and interleaving, end every wave alike |
| Topology.WithMachineStar | hyperspace/src/machine.rs:619-631 | the mutating loop yields copies of the templates joined to the machine star, and that star last, receiving all |
| Topology.WithMachineSpelledOut | hyperspace/src/machine.rs:619-631 | each given star connects to the machine star, which receives them in order and has no other connection |
| Topology.PrimeAdjacents | hyperspace/src/star.rs:184-190 | the loop builds the adjacency map, where later connections to a key replace earlier ones |
| Topology.AdjacentsAreStubs | hyperspace/src/star.rs:184-190 | when keys have one kind each, the neighbours of a star are exactly the stubs it is connected to |
| Topology.JoiningKeepsDuality | hyperspace/src/machine.rs:619-631 | joining the machine star keeps keys distinct, connections within the machine, and a connector at one end for each receiver at the other |
| Topology.JoiningKeepsForwarders | hyperspace/src/machine.rs:619-631 | the machine star becomes a neighbour of every star and every star one of its neighbours, and no star's forwarders change |
| Topology.HubConstellation | hyperspace/src/star.rs:660-665 | stars built from any hub template and the machine star form a hub, a machine and spokes that forward to the hub alone |
| Topology.HubDelivers | hyperspace/src/star.rs:983-1173 | there every transport between any two stars is delivered, accepted by at most two stars |
| Topology.HubComesToRest | hyperspace/src/star.rs:983-1173 | with recipients located, every net that a hub machine can get into has steps, at most its work bound, that bring it to rest without losing a wave |
| Topology.HubMachineDelivers | hyperspace/src/machine.rs:619-631 | over whole runs of any hub machine: no wave is lost but for want of a location, all are conserved and injected correctly, the run is bounded, and it can be brought to rest without losing another one |
| Topology.HubMachineCompletes | hyperspace/src/machine.rs:619-631 | when every recipient can be located no run loses a wave, each is injected where its recipient is, and a run at rest has handled or injected all it was given |
| Topology.DefaultTemplate | hyperspace/src/machine.rs:634-697 | the seven stars of the default machine, each with its key and kind; they are a hub template around nexus with dual connections |
| Topology.DefaultViewsAreNamed | hyperspace/src/machine.rs:634-680 | nexus receives the other six and each of them connects to nexus |
| Topology.AroundHubIsHub | hyperspace/src/machine.rs:667-680 | any spokes around a forwarder that receives each of them form a hub template with dual connections |
| Ripples.ShardRipple | hyperspace/src/star.rs:1782-1797 | exactly the neighbours that are not in the history get a copy, each with this star added to the history |
| Ripples.WrangledAreLongerPaths | hyperspace/src/driver/star.rs:712-725 | a star at the end of a simple path sends on to exactly the simple paths one longer |
| Ripples.ArriveKeepsInv | hyperspace/src/star.rs:1046-1077 | every arrival keeps copies on simple paths, forgets no path and duplicates no copy |
| Ripples.FloodIsSimplePaths | hyperspace/src/star.rs:1046-1077 | in any order of arrivals: each copy has come a simple path and never returns, no more copies arrive than there are simple paths, and the flood is over iff the copies of all simple paths have arrived |
| Ripples.FloodInFull | hyperspace/src/star.rs:1046-1077 | when the flood is over a copy has arrived iff its trail starts at the origin, goes on to neighbours of relaying stars, repeats no star and ends where the copy is, and its history is the stars behind it |
| Ripples.AllCopiesAreAll | hyperspace/src/star.rs:1854-1860 | the bound of the flood is a finite set that holds the copies of all simple paths and no others |
| Ripples.WalkToPath | hyperspace/src/driver/star.rs:457-471 | every walk through forwarders can be cut down to a simple path with the same end |
| Ripples.FloodReachesAll | hyperspace/src/driver/star.rs:457-471 | when the flood is over every star that can be reached through forwarders has got a copy |
| Provisioning.SmartLocator.Locate | hyperspace/src/star.rs:1934-1943 | unregistered points fail, located ones are answered from the record, the rest are provisioned |
| Provisioning.SmartLocator.ProvisionInner | hyperspace/src/star.rs:1956-1999 | the recursion sends requests for the missing points outermost first, each to the star of its parent, up to the first refusal, and records just those granted |
| Provisioning.SmartLocator.Ask | hyperspace/src/driver/star.rs:311-365 | the asked star records the location before it replies with it, or refuses and changes nothing, the unregistered point included |
| Provisioning.ProvisionedInFull | hyperspace/src/star.rs:1956-1999 | below the nearest located ancestor, point by point: it ends well iff every point down to the asked one is registered and gets a host; the points before the first refusal have their hosts and no other record changes; each was asked for once, in order, of the star its parent has |
| Provisioning.MissingIsGap | hyperspace/src/star.rs:1962-1967 | the points to provision are those from below the nearest located ancestor to the point, all but the point itself registered and not located |
| Provisioning.MissingIff | hyperspace/src/star.rs:1962-1967 | going up over registered points without a star, a located one is met, or one that is not registered, or none, and that decides between success and the two errors |
| Provisioning.StepKeepsInv | hyperspace/src/star.rs:1934-1999 | every step of any locator or answering star keeps the located points closed under parents |
| Provisioning.StepChanges | hyperspace/src/star.rs:1934-1999 | records are only made by registration, without a star, and only changed by a star that grants a request; a step changes one task at most |
| Provisioning.AsksParentStar | hyperspace/src/star.rs:1969-1999 | a request goes to the star that the parent has at that moment, for the innermost point |
| Provisioning.UnwrapIsSafe | hyperspace/src/star.rs:1969 | the parent's star is there whenever it is taken out of the record |
| Provisioning.EveryRunStaysClosed | hyperspace/src/star.rs:1956-1999 | under any interleaving the located points stay closed under parents and no point loses its location |
| Provisioning.TwoTasksDisagree | hyperspace/src/driver/star.rs:417-420 | a run in which two tasks on one point end well with different stars and the record keeps the later |
| Provisioning.AloneAnswersStand | hyperspace/src/star.rs:1956-1999 | while no second task is at work on a point every answer given for it is its record, and its star never changes |
| Provisioning.TwoAtWorkCanDisagree | hyperspace/src/star.rs:1956-1999 | from every world in which two tasks are at work on a point without an answer, some run gives them any two answers, so that one is not the record |
| Provisioning.RunsAreBounded | hyperspace/src/star.rs:1956-1999 | a run takes at most four steps a segment, and five, for each point that is asked for |
| Provisioning.AloneIsLocator | hyperspace/src/star.rs:1934-1999 | a task that is alone from start to end answers and changes the registry exactly as the recursive method does |
| Provisioning.CallsAreShallow | hyperspace/src/star.rs:1955-1967 | the nested calls are the ancestors of the first point in turn |
| Provisioning.CallsStayBelowLocated | hyperspace/src/star.rs:1962-1967 | so they are no deeper than the distance to the nearest ancestor located before the task started, in any run |
| Provisioning.FinishedTaskHasPath | hyperspace/src/star.rs:1934-1999 | a task that ends well leaves the whole path to its point located, in any run |
| Access.ChildPerms.Or | space/src/security.rs:370-374 | the new child permissions are the bitwise or of the old and the block |
| Access.ChildPerms.And | space/src/security.rs:376-380 | the new child permissions are the bitwise and of the old and the block |
| Access.ParticlePerms.Or | space/src/security.rs:433-437 | the new particle permissions are the bitwise or of the old and the block |
| Access.ParticlePerms.And | space/src/security.rs:439-443 | the new particle permissions are the bitwise and of the old and the block |
| Access.Permissions.Or | space/src/security.rs:329-332 | bit by bit the or of both |
| Access.Permissions.And | space/src/security.rs:334-337 | bit by bit the and of both |
| Access.EnumeratedOr | space/src/security.rs:176-183 | the loop yields the union of the sets |
| Access.EnumeratedAnd | space/src/security.rs:185-188 | retaining yields the intersection of the sets |
| Access.OrPrivileges | space/src/security.rs:99-107 | the result has what either side has, and is full iff a side is |
| Access.AndPrivileges | space/src/security.rs:109-119 | the result is the privileges both sides have |
| Access.CommonPrivileges | space/src/security.rs:109-119 | it has exactly what both have, and is full iff both are |
| Access.PrivilegesHold | space/src/security.rs:88-156 | what privileges hold, and what one more privilege adds |
| Access.BitsByName | space/src/security.rs:299-341 | which flag is which permission, and that full has all and none has none of them |
| Access.EnumeratedAccess.Add | space/src/security.rs:260-273 | an Or grant sets its bits, an And grant clears those it lacks, a privilege is added, a super grant changes nothing; permissions and privileges never change together |
| Access.EnumeratedAccess.And | space/src/security.rs:251-254 | both components are restricted to what the other has |
| Access.LastForceWins | space/src/security.rs:260-273 | after any list of grants each bit has the value the last deciding grant gives it, or its old value |
| Access.MaskNormalForm | space/src/security.rs:260-273 | any list of grants acts on permissions as one And and one Or mask that depend on the list alone, the Or within the And |
| Access.NormalFormUnique | space/src/security.rs:260-273 | those two masks are the only such pair |
| Access.OrAndCommute | space/src/security.rs:329-337 | an Or and an And grant may be swapped iff the And keeps all that the Or sets |
| Access.PrivilegesAreUnion | space/src/security.rs:122-156 | after any list of grants the privileges are the union with all granted, or full when one grant or the start is |
| Access.PrivilegesIgnoreOrder | space/src/security.rs:122-156 | any rearrangement of the grants yields the same privileges |
| Access.ComponentsAreIndependent | space/src/security.rs:260-273 | permissions depend on the mask grants alone and privileges on the privilege grants alone |
| Access.BitInFull | space/src/security.rs:260-273 | after any list of grants a bit is set iff some Or grant sets it and no later And grant takes it away, or it was set and no And grant takes it away |
| RegistryAccess.Fetch | platform/registry/postgres/src/registry.rs:773-783 | the grants stored under a point whose two selectors match, no others, in order |
| RegistryAccess.AddLevel | platform/registry/postgres/src/registry.rs:785-811 | the loop over a level asks for the access of each grantor and stops iff a super grant is by one with super access; otherwise it adds exactly the privileges and Or bits of grants by those with full access |
| RegistryAccess.AndMasks | platform/registry/postgres/src/registry.rs:812-828 | the masks saved for a level keep a bit iff no And grant of the level clears it |
| RegistryAccess.ApplyAnds | platform/registry/postgres/src/registry.rs:842-847 | the nested loops restrict the permissions to the bits that all saved masks of all levels keep |
| RegistryAccess.AccessTo | platform/registry/postgres/src/registry.rs:729-860 | whenever asking along the grantors ends, at whatever depth, the recursive walk terminates; the hyperuser gets super access if it owns the point and super-owner access if not, the owner of itself ownership, and everyone else what the kept grants decide |
| RegistryAccess.AccessInFull | platform/registry/postgres/src/registry.rs:729-860 | the same at every depth, with the grants spelled out: super iff a kept super grant is by one with super access, else ownership, else the privileges and Or bits granted by those with full access less the bits that And grants clear |
| RegistryAccess.AmountMeans | platform/registry/postgres/src/registry.rs:785-858 | that access is super iff a kept grant is super by one with super access, else ownership, else all privileges given, and the bits set somewhere and cleared nowhere |
| RegistryAccess.DepthDoesNotMatter | platform/registry/postgres/src/registry.rs:785-786 | the access found does not depend on the depth at which asking ends |
| RegistryAccess.EndsIffRankedFrom | platform/registry/postgres/src/registry.rs:785-786 | asking ends for one particle iff it is among particles closed under being asked and ranked so that everyone asked is below the asker |
| RegistryAccess.HyperSuperShields | platform/registry/postgres/src/registry.rs:785-795 | behind a super grant of the hyperuser nobody is asked, so asking ends whatever else is granted |
| RegistryAccess.EveryoneEndsIffRanked | platform/registry/postgres/src/registry.rs:785-786 | asking ends for every particle iff all are so ranked |
| RegistryAccess.EndsIfRankedByGrants | platform/registry/postgres/src/registry.rs:785-786 | for one particle it ends where such a rank can be read off the grants alone, and without super grants only there |
| RegistryAccess.CircleNeverEnds | platform/registry/postgres/src/registry.rs:785-786 | particles whose first kept grant is always by another of them exhaust every depth |
| RegistryAccess.MutualGrantsNeverEnd | platform/registry/postgres/src/registry.rs:785-786 | a registry with two grants, of any kind, by two particles to each other, for which asking never ends |
| RegistryAccess.OthersEnd | platform/registry/postgres/src/registry.rs:785-786 | in the same registry asking ends for a third particle |
| RegistryAccess.WalkFindsEveryMatch | platform/registry/postgres/src/registry.rs:766-843 | for every selector of the form the parser yields the walk comes by every grant whose selectors match; for a point with a route it comes by none |
| RegistryAccess.AccessIsOfMatches | platform/registry/postgres/src/registry.rs:729-860 | so for everyone but the hyperuser and the owner of itself the access found is what all grants with matching selectors decide, wherever they are stored |
| Searching.SubSelect | platform/registry/postgres/src/registry.rs:531-696 | the recursion over levels reports exactly the paths whose rows have on every level with hops left the text, base and sub kind that the hop names and pass the test on specifics, matched while hops are left; it fails iff such a path ends in a filesystem root with hops left |
| Searching.Select | hyperspace/src/registry.rs:55-80 | the same from the query root with the hops behind it; the root itself is reported iff there are no hops or one inclusive hop that takes its kind; the call is exact, as the rows below say it, iff it ends well and reports the matching particles and no others |
| Searching.MatchesLieBelow | hyperspace/src/registry.rs:56-66 | every matching particle is at or below the one the search starts from |
| Searching.ReachesIffPasses | platform/registry/postgres/src/registry.rs:643-672 | what the recursion reaches, level by level: each segment passes the hop of its level, and a `**` stays |
| Searching.ReportedByLevels | platform/registry/postgres/src/registry.rs:531-696 | for all hops, several or inclusive `**` included, what is reported and what makes the call fail, level by level and without recursion |
| Searching.RowsAreReported | platform/registry/postgres/src/registry.rs:543-570 | the same with the where clause spelled out, row by row, for both directions |
| Searching.SearchIsExactIff | platform/registry/postgres/src/registry.rs:531-696 | for every selector: the call ends well and reports exactly the matches iff no filesystem root is reached with hops left, every match passes level by level, and what is reached without hops left matches |
| Searching.RecursiveSearchFinds | platform/registry/postgres/src/registry.rs:531-696 | with plain hops up to a `**`, the call is exact iff no filesystem root is reached and every segment of a match from the `**` on passes the where clause of the `**` |
| Searching.RootDirStopsRecursive | platform/registry/postgres/src/registry.rs:655-659 | with a filesystem root registered, `**` passes every clause and matches everything, and the call fails |
| Searching.ClauseMissesMatch | platform/registry/postgres/src/registry.rs:561-570 | a `**` of one kind misses a match below a particle of another kind |
| Searching.PlainSearchFinds | platform/registry/postgres/src/registry.rs:531-696 | without recursive hops, the call is exact iff it reaches no filesystem root with hops left and nothing below the level of the last hop |
| Searching.RootDirStopsPlain | platform/registry/postgres/src/registry.rs:655-659 | `*:*` fails on a registry with a filesystem root on its second level |
| Searching.SearchOvershoots | platform/registry/postgres/src/registry.rs:643-672 | `*` also reports the children of what it matches |
| Searching.NamedSearchFinds | platform/registry/postgres/src/registry.rs:531-540 | a selector that only names never fails, reports all children of what it names and can match nothing but that |
| Searching.InclusiveRecursiveStops | platform/registry/postgres/src/registry.rs:646-654 | an inclusive `**` is searched for two levels only, though it matches at every depth |

## Left out

- The text parsers and all that goes through them: `Point::push`, `from_str`, and the resolution of points with variables.
- Layer traversal inside a star; a wave injected into the layers is at its place.
- Star drivers, hyperlanes, bridges, timeouts and retries; channels deliver every message once, in any order.
- Which star is wrangled to host a particle, and the status written to the registry when provisioning fails.
- Ripples to a single or to several recipients, which the program leaves unimplemented, and to watchers, which it leaves empty.
- The echoes and discoveries that a search ripple gathers; the model follows its copies outward.
- `StarRoute` keys: a star's point is identified with its key, whose text form is not modelled.
- Stars.HyperStar.FromHyperway: the tracking call at the hop limit is a `todo!` in the program; the model drops the transport with the error that follows.
- Stars.HyperStar.ToHyperway: with several forwarders the program stops at `unimplemented!`; the model drops the transport with an error of its own and the star goes on.
- Fabric.EveryRunIsSafe: a locator's answer may differ from an earlier one for the same point, so a wave is injected where its recipient was located, which need not be where it is registered later.
- Topology.HubMachineDelivers: recipients are located on stars of the same machine; that the stars do take the steps that lead to rest, as a fair scheduler makes them, is not modelled.
- Searching.Select: starts when the hierarchy of the query root has been read, which fails in the program when the query root is not registered; the rows are a set, so their order is not modelled.
- Selectors.ErasureBehindMiddleRecursive: for selectors with several `**`, other than a pair at the end, only the sufficient condition of KindErasureIsMonotone is given; when erasure keeps their matches depends on which segment patterns imply which.
- Provisioning.SmartLocator.Ask: the requests of one locator are answered at once; the step system takes them apart.
- RegistryAccess.AccessTo: requires that asking ends at some depth, as the program does not return otherwise; failures of the database are not modelled.
- RegistryAccess.Fetch: the database query is a filter on a list of grants in the order of the list.
- Access.Permissions.Or: the mask argument is a value, so a struct or-ed with itself is not told apart from an equal one.
- The order on indexed access grants, which is not a total order in the program.
- PointPrinter.DisplayIsReadable: no space may begin with `<`, and a star's route may not hold `>`; the parsers admit neither.
- `Point::normalize`, which is the identity here, and `Selector::matches_root`.
- The golden path of a star, which no code of the transport reads.
- Kind and specific conversion, and the semver library.
- Foundation and base traits, the command line, installer, macros and configuration.
