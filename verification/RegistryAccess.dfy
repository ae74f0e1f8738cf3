/**
Access in the registry: which of the granted permissions and privileges one
point has on another.

Grants are stored under the printed query root of the selector they are
granted on.  The walk goes from the point up to the root, fetches the grants
stored under each ancestor, and keeps those whose selectors match.  For each
grant it keeps it asks for the access of the particle that granted, and so on
along the chain of trust.  That recursion need not end; Eval gives it a depth.
 */
module RegistryAccess {
  import opened Outcomes
  import opened Points
  import opened PointPrinter
  import opened Selectors
  import opened SelectorQuery
  import opened Access

  datatype Grant = Grant(kind: GrantKind, onPoint: Selector, toPoint: Selector, byParticle: Point)

  /** The access of the particle that granted: whether it is full, and whether it is super. */
  datatype Grantor = Grantor(full: bool, super: bool)

  type Grantors = Point -> Grantor

  datatype AccessFound =
    | SuperAccess
    | OwnerAccess
    | SuperOwnerAccess
    | GrantedAccess(privileges: Privileges, permissions: Mask)
  {
    predicate HasSuper() {
      SuperAccess? || SuperOwnerAccess?
    }

    predicate HasFull() {
      !GrantedAccess?
    }
  }

  /** What the registry knows: the grants in order, who owns what, and the recorded hierarchy of each point. */
  datatype Registry = Registry(
    grants: seq<Grant>,
    owns: (Point, Point) -> bool,
    hierarchy: Point -> Hierarchy,
    hyperUser: Point)

  function StoredUnder(grant: Grant): string {
    Display(PointDef(This, QueryRootSegs(grant.onPoint.hops)))
  }

  predicate Matching(grant: Grant, onPath: Hierarchy, toPath: Hierarchy) {
    grant.toPoint.MatchesFoundOpt(toPath) && grant.onPoint.MatchesFoundOpt(onPath)
  }

  /** The walk comes by the grant at a prefix of at least `n` segments, and keeps it. */
  predicate FoundFrom(grant: Grant, on: Point, n: nat, onPath: Hierarchy, toPath: Hierarchy) {
    && Matching(grant, onPath, toPath)
    && exists m | n <= m <= |on.segments| :: StoredUnder(grant) == Display(Prefix(on, m))
  }

  // ---------------------------------------------------------------- what a grant does

  predicate IsSuper(grant: Grant, grantors: Grantors) {
    grant.kind.Super? && grantors(grant.byParticle).super
  }

  predicate Gives(grant: Grant, grantors: Grantors, privilege: string) {
    && grant.kind.PrivilegeGrant? && grantors(grant.byParticle).full
    && (grant.kind.privilege.FullPrivilege? || grant.kind.privilege.name == privilege)
  }

  predicate Sets(grant: Grant, grantors: Grantors, bit: PermissionBit) {
    grant.kind.MaskGrant? && grant.kind.kind.OrMask? && grantors(grant.byParticle).full && grant.kind.mask.Bit(bit)
  }

  /** And masks are taken whoever granted them. */
  predicate Clears(grant: Grant, bit: PermissionBit) {
    grant.kind.MaskGrant? && grant.kind.kind.AndMask? && !grant.kind.mask.Bit(bit)
  }

  // ---------------------------------------------------------------- what a list of grants does

  ghost predicate AnySuper(grants: seq<Grant>, grantors: Grantors) {
    exists g :: g in grants && IsSuper(g, grantors)
  }

  ghost predicate AnyGives(grants: seq<Grant>, grantors: Grantors, privilege: string) {
    exists g :: g in grants && Gives(g, grantors, privilege)
  }

  ghost predicate AnySets(grants: seq<Grant>, grantors: Grantors, bit: PermissionBit) {
    exists g :: g in grants && Sets(g, grantors, bit)
  }

  ghost predicate NoneClears(grants: seq<Grant>, bit: PermissionBit) {
    forall g :: g in grants ==> !Clears(g, bit)
  }

  lemma GrantsConcat(a: seq<Grant>, b: seq<Grant>, grantors: Grantors)
    ensures AnySuper(a + b, grantors) <==> AnySuper(a, grantors) || AnySuper(b, grantors)
    ensures forall p :: AnyGives(a + b, grantors, p) <==> AnyGives(a, grantors, p) || AnyGives(b, grantors, p)
    ensures forall bit :: AnySets(a + b, grantors, bit) <==> AnySets(a, grantors, bit) || AnySets(b, grantors, bit)
    ensures forall bit :: NoneClears(a + b, bit) <==> NoneClears(a, bit) && NoneClears(b, bit)
  {
    hide IsSuper, Gives, Sets, Clears;
    assert forall g :: g in a + b <==> g in a || g in b;
  }

  lemma GrantAlone(g: Grant, grantors: Grantors)
    ensures AnySuper([g], grantors) <==> IsSuper(g, grantors)
    ensures forall p :: AnyGives([g], grantors, p) <==> Gives(g, grantors, p)
    ensures forall bit :: AnySets([g], grantors, bit) <==> Sets(g, grantors, bit)
    ensures forall bit :: NoneClears([g], bit) <==> !Clears(g, bit)
  {
    hide IsSuper, Gives, Sets, Clears;
    assert g in [g];
  }

  /** All masks keep the bit. */
  predicate Keep(ands: seq<Mask>, bit: PermissionBit) {
    forall mask | mask in ands :: mask.Bit(bit)
  }

  predicate AllKeep(levels: seq<seq<Mask>>, bit: PermissionBit) {
    forall level | level in levels :: Keep(level, bit)
  }

  lemma KeepMore(ands: seq<Mask>, mask: Mask)
    ensures forall bit :: Keep(ands + [mask], bit) <==> Keep(ands, bit) && mask.Bit(bit)
  {
    assert forall m :: m in ands + [mask] <==> m in ands || m == mask;
  }

  lemma AllKeepConcat(a: seq<seq<Mask>>, b: seq<seq<Mask>>)
    ensures forall bit :: AllKeep(a + b, bit) <==> AllKeep(a, bit) && AllKeep(b, bit)
  {
    hide Keep;
    assert forall level :: level in a + b <==> level in a || level in b;
  }

  lemma AllKeepAlone(ands: seq<Mask>)
    ensures forall bit :: AllKeep([ands], bit) <==> Keep(ands, bit)
  {
    assert ands in [ands];
  }

  // ---------------------------------------------------------------- one level of the walk

  /** The grants stored under a point, of which those with matching selectors are retained. */
  function Kept(grants: seq<Grant>, under: string, onPath: Hierarchy, toPath: Hierarchy): (found: seq<Grant>)
    ensures forall g :: g in found <==> g in grants && StoredUnder(g) == under && Matching(g, onPath, toPath)
  {
    if |grants| == 0 then []
    else
      var front, last := grants[..|grants| - 1], grants[|grants| - 1];
      assert forall g :: g in grants <==> g in front || g == last;
      Kept(front, under, onPath, toPath)
      + if StoredUnder(last) == under && Matching(last, onPath, toPath) then [last] else []
  }

  method Fetch(grants: seq<Grant>, under: string, onPath: Hierarchy, toPath: Hierarchy) returns (found: seq<Grant>)
    ensures found == Kept(grants, under, onPath, toPath)
    ensures forall g :: g in found <==>
              && g in grants && StoredUnder(g) == under
              && g.toPoint.MatchesFoundOpt(toPath) && g.onPoint.MatchesFoundOpt(onPath)
  {
    found := [];
    for i := 0 to |grants|
      invariant found == Kept(grants[..i], under, onPath, toPath)
    {
      if StoredUnder(grants[i]) == under && Matching(grants[i], onPath, toPath) {
        found := found + [grants[i]];
      }
      assert grants[..i + 1][..i] == grants[..i];
    }
    assert grants[..|grants|] == grants;
  }

  /** Adds the privileges that those with full access grant, in order. */
  function FoldGiven(privileges: Privileges, found: seq<Grant>, grantors: Grantors): Privileges {
    if |found| == 0 then privileges
    else
      var front, last := FoldGiven(privileges, found[..|found| - 1], grantors), found[|found| - 1];
      if last.kind.PrivilegeGrant? && grantors(last.byParticle).full then front.With(last.kind.privilege) else front
  }

  lemma {:induction false} FoldGivenConcat(privileges: Privileges, a: seq<Grant>, b: seq<Grant>, grantors: Grantors)
    ensures FoldGiven(privileges, a + b, grantors) == FoldGiven(FoldGiven(privileges, a, grantors), b, grantors)
  {
    if |b| == 0 {
      assert a + b == a;
    } else {
      assert (a + b)[..|a + b| - 1] == a + b[..|b| - 1];
      FoldGivenConcat(privileges, a, b[..|b| - 1], grantors);
    }
  }

  lemma {:induction false} FoldGivenHas(privileges: Privileges, found: seq<Grant>, grantors: Grantors)
    ensures forall p :: FoldGiven(privileges, found, grantors).Has(p) <==>
                          privileges.Has(p) || AnyGives(found, grantors, p)
  {
    if |found| > 0 {
      var front, last := found[..|found| - 1], found[|found| - 1];
      assert found == front + [last];
      FoldGivenHas(privileges, front, grantors);
      GrantsConcat(front, [last], grantors);
      GrantAlone(last, grantors);
      hide AnyGives;
    }
  }

  /** Asks for the access of each grantor and adds what it lets through; stops at a super grant. */
  method AddLevel(reg: Registry, on: Point, found: seq<Grant>, privileges: Privileges, permissions: Permissions,
                  ghost depth: nat)
    returns (super: bool, more: Privileges)
    requires AllAnswered(found, Asked(reg, on, depth))
    modifies permissions.child, permissions.particle
    ensures super <==> AnySuper(found, Flags(Asked(reg, on, depth)))
    ensures !super ==> more == FoldGiven(privileges, found, Flags(Asked(reg, on, depth)))
    ensures !super ==> forall b ::
              permissions.View().Bit(b) <==>
              old(permissions.View()).Bit(b) || AnySets(found, Flags(Asked(reg, on, depth)), b)
    decreases depth, 2
  {
    hide AnySuper, AnyGives, AnySets, NoneClears, FoldGiven, AllAnswered, Eval, Asked, Flags, GrantsDecide, KeptGrants;
    more := privileges;
    ghost var ask := Asked(reg, on, depth);
    ghost var grantors := Flags(ask);
    NothingFound(privileges, grantors);
    for i := 0 to |found|
      invariant !AnySuper(found[..i], grantors)
      invariant more == FoldGiven(privileges, found[..i], grantors)
      invariant forall b ::
                  permissions.View().Bit(b) <==> old(permissions.View()).Bit(b) || AnySets(found[..i], grantors, b)
    {
      var grant := found[i];
      OneMoreFound(privileges, found, i, grantors);
      GrantorAnswers(reg, on, found, i, depth);
      var byAccess := AccessTo(reg, grant.byParticle, on, depth);
      FlagsOf(ask, grant.byParticle);
      match grant.kind {
        case Super =>
          if byAccess.HasSuper() {
            SuperIsFound(found, i, grantors);
            super := true;
            return;
          }
        case PrivilegeGrant(privilege) =>
          if byAccess.HasFull() {
            more := more.With(privilege);
          }
        case MaskGrant(OrMask, mask) =>
          if byAccess.HasFull() {
            permissions.Or(mask);
          }
        case MaskGrant(AndMask, _) =>
      }
    }
    assert found[..|found|] == found;
    super := false;
  }

  lemma NothingFound(privileges: Privileges, grantors: Grantors)
    ensures !AnySuper([], grantors) && FoldGiven(privileges, [], grantors) == privileges
    ensures forall b :: !AnySets([], grantors, b)
  {
  }

  lemma OneMoreFound(privileges: Privileges, found: seq<Grant>, i: int, grantors: Grantors)
    requires 0 <= i < |found|
    ensures AnySuper(found[..i + 1], grantors) <==> AnySuper(found[..i], grantors) || IsSuper(found[i], grantors)
    ensures FoldGiven(privileges, found[..i + 1], grantors) ==
            var front, last := FoldGiven(privileges, found[..i], grantors), found[i];
            if last.kind.PrivilegeGrant? && grantors(last.byParticle).full then front.With(last.kind.privilege)
            else front
    ensures forall b :: AnySets(found[..i + 1], grantors, b) <==>
                          AnySets(found[..i], grantors, b) || Sets(found[i], grantors, b)
  {
    hide AnySuper, AnyGives, AnySets, NoneClears, IsSuper, Sets;
    assert found[..i + 1] == found[..i] + [found[i]] && found[..i + 1][..i] == found[..i];
    GrantsConcat(found[..i], [found[i]], grantors);
    GrantAlone(found[i], grantors);
  }

  lemma GrantorAnswers(reg: Registry, on: Point, found: seq<Grant>, i: int, depth: nat)
    requires 0 <= i < |found| && AllAnswered(found, Asked(reg, on, depth))
    requires !AnySuper(found[..i], Flags(Asked(reg, on, depth)))
    ensures Eval(reg, found[i].byParticle, on, depth).Some?
    ensures Asked(reg, on, depth)(found[i].byParticle) == Eval(reg, found[i].byParticle, on, depth)
  {
    hide Eval, AnySuper, Flags;
  }

  lemma FlagsOf(ask: Answers, p: Point)
    requires ask(p).Some?
    ensures Flags(ask)(p) == Grantor(ask(p).value.HasFull(), ask(p).value.HasSuper())
  {
  }

  lemma SuperIsFound(found: seq<Grant>, i: int, grantors: Grantors)
    requires 0 <= i < |found| && IsSuper(found[i], grantors)
    ensures AnySuper(found, grantors)
  {
  }

  /** The And masks of a level, saved for the way back down. */
  method AndMasks(found: seq<Grant>) returns (ands: seq<Mask>)
    ensures forall b :: Keep(ands, b) <==> NoneClears(found, b)
  {
    ands := [];
    for i := 0 to |found|
      invariant forall b :: Keep(ands, b) <==> NoneClears(found[..i], b)
    {
      var grant := found[i];
      assert found[..i + 1] == found[..i] + [grant];
      hide NoneClears, Keep;
      GrantsConcat(found[..i], [grant], _ => Grantor(false, false));
      GrantAlone(grant, _ => Grantor(false, false));
      if grant.kind.MaskGrant? && grant.kind.kind.AndMask? {
        KeepMore(ands, grant.kind.mask);
        ands := ands + [grant.kind.mask];
      }
    }
    assert found[..|found|] == found;
  }

  // ---------------------------------------------------------------- what is found amounts to

  ghost function MaskOf(bits: PermissionBit -> bool): (mask: Mask)
    ensures forall b :: mask.Bit(b) <==> bits(b)
  {
    Mask(ChildMask(bits(Create), bits(Select), bits(Delete)), ParticleMask(bits(Read), bits(Write), bits(Execute)))
  }

  /** The access that the grants found amount to. */
  ghost function Amount(found: seq<Grant>, grantors: Grantors, isOwner: bool): AccessFound {
    if AnySuper(found, grantors) then if isOwner then SuperOwnerAccess else SuperAccess
    else if isOwner then OwnerAccess
    else GrantedAccess(FoldGiven(Enumerated({}), found, grantors),
                       MaskOf(b => AnySets(found, grantors, b) && NoneClears(found, b)))
  }

  /** Super access by one super grant, else ownership, else all that is given and set and not cleared. */
  ghost predicate AmountsTo(r: AccessFound, found: seq<Grant>, grantors: Grantors, isOwner: bool) {
    if AnySuper(found, grantors) then r == if isOwner then SuperOwnerAccess else SuperAccess
    else if isOwner then r == OwnerAccess
    else
      && r.GrantedAccess?
      && (forall p :: r.privileges.Has(p) <==> AnyGives(found, grantors, p))
      && (forall b :: r.permissions.Bit(b) <==> AnySets(found, grantors, b) && NoneClears(found, b))
  }

  lemma AmountMeans(found: seq<Grant>, grantors: Grantors, isOwner: bool)
    ensures AmountsTo(Amount(found, grantors, isOwner), found, grantors, isOwner)
  {
    FoldGivenHas(Enumerated({}), found, grantors);
    hide AnySuper, AnyGives, AnySets, NoneClears, FoldGiven;
  }

  // ---------------------------------------------------------------- access, by the depth of the recursion

  type Answers = Point -> Option<AccessFound>

  function Flags(ask: Answers): Grantors {
    p =>
      match ask(p)
      case None => Grantor(false, false)
      case Some(access) => Grantor(access.HasFull(), access.HasSuper())
  }

  /** Every grantor that is asked answers; those behind a super grant are not asked. */
  ghost predicate AllAnswered(found: seq<Grant>, ask: Answers) {
    forall i :: 0 <= i < |found| && !AnySuper(found[..i], Flags(ask)) ==> ask(found[i].byParticle).Some?
  }

  /** The cases in which no grant is looked at. */
  function Stop(reg: Registry, to: Point, on: Point): Option<AccessFound> {
    if to == reg.hyperUser then Some(if reg.owns(to, on) then SuperAccess else SuperOwnerAccess)
    else if to == on && reg.owns(to, on) then Some(OwnerAccess)
    else None
  }

  /** The grants the walk keeps at the prefixes of `on` from all of it down to `n` segments, in order. */
  function WalkDown(reg: Registry, to: Point, on: Point, n: nat): seq<Grant>
    requires n <= |on.segments| + 1
    decreases |on.segments| + 1 - n
  {
    if n == |on.segments| + 1 then []
    else
      WalkDown(reg, to, on, n + 1)
      + Kept(reg.grants, Display(Prefix(on, n)), reg.hierarchy(on), reg.hierarchy(to))
  }

  /** The access of `to` on `on`, if asking ends within `depth` nested questions. */
  ghost function Eval(reg: Registry, to: Point, on: Point, depth: nat): Option<AccessFound>
    decreases depth, 0
  {
    match Stop(reg, to, on)
    case Some(access) => Some(access)
    case None =>
      if depth == 0 then None
      else
        var found, ask := WalkDown(reg, to, on, 0), Asked(reg, on, depth - 1);
        if AllAnswered(found, ask) then Some(Amount(found, Flags(ask), reg.owns(to, on))) else None
  }

  ghost function Asked(reg: Registry, on: Point, depth: nat): Answers
    decreases depth, 1
  {
    p => Eval(reg, p, on, depth)
  }

  /** The grants stored under the point or a prefix of it whose two selectors match. */
  ghost function KeptGrants(reg: Registry, to: Point, on: Point): set<Grant> {
    set g | && g in reg.grants
            && g.toPoint.MatchesFoundOpt(reg.hierarchy(to)) && g.onPoint.MatchesFoundOpt(reg.hierarchy(on))
            && exists m | 0 <= m <= |on.segments| ::
                 Display(PointDef(This, QueryRootSegs(g.onPoint.hops))) == Display(Prefix(on, m))
  }

  /**
  What grants and the access of those who granted decide: super access by a super
  grant of one with super access, else ownership, else the privileges and Or masks
  of those with full access, less what any And mask takes away.
   */
  ghost predicate GrantsDecide(r: AccessFound, grants: set<Grant>, ask: Answers, isOwner: bool) {
    if exists g :: g in grants && g.kind.Super? && ask(g.byParticle) in {Some(SuperAccess), Some(SuperOwnerAccess)}
    then r == if isOwner then SuperOwnerAccess else SuperAccess
    else if isOwner then r == OwnerAccess
    else
      && r.GrantedAccess?
      && (forall p :: r.privileges.Has(p) <==>
            exists g :: g in grants
              && (g.kind == PrivilegeGrant(FullPrivilege) || g.kind == PrivilegeGrant(SinglePrivilege(p)))
                        && ask(g.byParticle).Some? && !ask(g.byParticle).value.GrantedAccess?)
      && (forall b :: r.permissions.Bit(b) <==>
            && (exists g :: g in grants && g.kind.MaskGrant? && g.kind.kind == OrMask && g.kind.mask.Bit(b)
                            && ask(g.byParticle).Some? && !ask(g.byParticle).value.GrantedAccess?)
            && (forall g :: g in grants && g.kind.MaskGrant? && g.kind.kind == AndMask ==> g.kind.mask.Bit(b)))
  }

  lemma AmountDecides(r: AccessFound, found: seq<Grant>, grants: set<Grant>, ask: Answers, isOwner: bool)
    requires AmountsTo(r, found, Flags(ask), isOwner)
    requires forall g :: g in found <==> g in grants
    ensures GrantsDecide(r, grants, ask, isOwner)
  {
    SuperSpelledOut(found, grants, ask);
    PrivilegesSpelledOut(found, grants, ask);
    MasksSpelledOut(found, grants, ask);
    hide AnySuper, AnyGives, AnySets, NoneClears;
  }

  lemma SuperSpelledOut(found: seq<Grant>, grants: set<Grant>, ask: Answers)
    requires forall g :: g in found <==> g in grants
    ensures AnySuper(found, Flags(ask)) <==>
            exists g :: g in grants && g.kind.Super? && ask(g.byParticle) in {Some(SuperAccess), Some(SuperOwnerAccess)}
  {
    assert forall g :: IsSuper(g, Flags(ask)) <==>
                         g.kind.Super? && ask(g.byParticle) in {Some(SuperAccess), Some(SuperOwnerAccess)};
  }

  lemma PrivilegesSpelledOut(found: seq<Grant>, grants: set<Grant>, ask: Answers)
    requires forall g :: g in found <==> g in grants
    ensures forall p :: AnyGives(found, Flags(ask), p) <==>
              exists g :: g in grants
                && (g.kind == PrivilegeGrant(FullPrivilege) || g.kind == PrivilegeGrant(SinglePrivilege(p)))
                          && ask(g.byParticle).Some? && !ask(g.byParticle).value.GrantedAccess?
  {
    assert forall g, p :: Gives(g, Flags(ask), p) <==>
                            && (g.kind == PrivilegeGrant(FullPrivilege) || g.kind == PrivilegeGrant(SinglePrivilege(p)))
                            && ask(g.byParticle).Some? && !ask(g.byParticle).value.GrantedAccess?;
    hide Gives, Flags;
  }

  lemma MasksSpelledOut(found: seq<Grant>, grants: set<Grant>, ask: Answers)
    requires forall g :: g in found <==> g in grants
    ensures forall b :: AnySets(found, Flags(ask), b) <==>
              exists g :: g in grants && g.kind.MaskGrant? && g.kind.kind == OrMask && g.kind.mask.Bit(b)
                          && ask(g.byParticle).Some? && !ask(g.byParticle).value.GrantedAccess?
    ensures forall b :: NoneClears(found, b) <==>
              forall g :: g in grants && g.kind.MaskGrant? && g.kind.kind == AndMask ==> g.kind.mask.Bit(b)
  {
    assert forall g, b :: Sets(g, Flags(ask), b) <==>
                            && g.kind.MaskGrant? && g.kind.kind == OrMask && g.kind.mask.Bit(b)
                            && ask(g.byParticle).Some? && !ask(g.byParticle).value.GrantedAccess?;
    assert forall g, b :: Clears(g, b) <==> g.kind.MaskGrant? && g.kind.kind == AndMask && !g.kind.mask.Bit(b);
    hide Sets, Clears, Flags;
  }

  ghost predicate Ends(reg: Registry, to: Point, on: Point) {
    exists depth: nat :: Eval(reg, to, on, depth).Some?
  }

  // ---------------------------------------------------------------- the walk

  lemma {:induction false} WalkMembers(reg: Registry, to: Point, on: Point, n: nat)
    requires n <= |on.segments| + 1
    ensures forall g :: g in WalkDown(reg, to, on, n) <==>
                          g in reg.grants && FoundFrom(g, on, n, reg.hierarchy(on), reg.hierarchy(to))
    decreases |on.segments| + 1 - n
  {
    if n <= |on.segments| {
      WalkMembers(reg, to, on, n + 1);
    }
  }

  lemma KeepNothing()
    ensures forall bit :: AllKeep([], bit) && Keep([], bit)
  {
  }

  /** On the way back down the And masks are applied, those of the root first. */
  method ApplyAnds(levels: seq<seq<Mask>>, permissions: Permissions)
    modifies permissions.child, permissions.particle
    ensures forall b :: permissions.View().Bit(b) <==> old(permissions.View()).Bit(b) && AllKeep(levels, b)
  {
    hide AllKeep, Keep;
    var k := |levels|;
    assert levels[k..] == [];
    KeepNothing();
    while k > 0
      invariant 0 <= k <= |levels|
      invariant forall b :: permissions.View().Bit(b) <==> old(permissions.View()).Bit(b) && AllKeep(levels[k..], b)
    {
      k := k - 1;
      var level := levels[k];
      ghost var before := permissions.View();
      for i := 0 to |level|
        invariant forall b :: permissions.View().Bit(b) <==> before.Bit(b) && Keep(level[..i], b)
      {
        permissions.And(level[i]);
        assert level[..i + 1] == level[..i] + [level[i]];
        KeepMore(level[..i], level[i]);
      }
      assert level[..|level|] == level;
      assert levels[k..] == [level] + levels[k + 1..];
      AllKeepConcat([level], levels[k + 1..]);
      AllKeepAlone(level);
    }
    assert levels[0..] == levels;
  }

  lemma EvalLooks(reg: Registry, to: Point, on: Point, depth: nat)
    requires Eval(reg, to, on, depth).Some?
    ensures match Stop(reg, to, on)
            case Some(access) => Eval(reg, to, on, depth) == Some(access)
            case None =>
              && depth > 0
              && var found, ask := WalkDown(reg, to, on, 0), Asked(reg, on, depth - 1);
              && AllAnswered(found, ask)
              && Eval(reg, to, on, depth) == Some(Amount(found, Flags(ask), reg.owns(to, on)))
  {
    hide AllAnswered, Amount, WalkDown, Flags, Asked;
  }

  /** One step of Eval: with all who are asked answered there is an access, and not without. */
  lemma EvalStep(reg: Registry, to: Point, on: Point, depth: nat)
    requires Stop(reg, to, on).None?
    ensures var found, ask := WalkDown(reg, to, on, 0), Asked(reg, on, depth);
            Eval(reg, to, on, depth + 1) ==
            if AllAnswered(found, ask) then Some(Amount(found, Flags(ask), reg.owns(to, on))) else None
    ensures Eval(reg, to, on, 0) == None
  {
    hide AllAnswered, Amount, WalkDown, Flags, Asked;
  }

  lemma EvalStops(reg: Registry, to: Point, on: Point, depth: nat)
    requires Stop(reg, to, on).Some?
    ensures Eval(reg, to, on, depth) == Stop(reg, to, on)
  {
  }

  lemma AskedIsEval(reg: Registry, on: Point, depth: nat)
    ensures forall p :: Asked(reg, on, depth)(p) == Eval(reg, p, on, depth)
  {
    hide Eval;
  }

  lemma NothingBeyond(reg: Registry, to: Point, on: Point)
    ensures WalkDown(reg, to, on, |on.segments| + 1) == []
  {
  }

  /** At every depth, with any grants: the hyperuser, an owner of itself, and everyone else by the grants kept. */
  lemma AccessInFull(reg: Registry, to: Point, on: Point, depth: nat)
    ensures to == reg.hyperUser ==>
              Eval(reg, to, on, depth) == Some(if reg.owns(to, on) then SuperAccess else SuperOwnerAccess)
    ensures to != reg.hyperUser && to == on && reg.owns(to, on) ==> Eval(reg, to, on, depth) == Some(OwnerAccess)
    ensures to != reg.hyperUser && !(to == on && reg.owns(to, on)) && Eval(reg, to, on, depth).Some? ==>
              && depth > 0
              && GrantsDecide(Eval(reg, to, on, depth).value, KeptGrants(reg, to, on), Asked(reg, on, depth - 1),
                              reg.owns(to, on))
  {
    hide Eval, Amount, AmountsTo, GrantsDecide, WalkDown, AllAnswered, Asked, Selector.MatchesFoundOpt, Display, Flags,
      KeptGrants;
    if Stop(reg, to, on).Some? {
      EvalStops(reg, to, on, depth);
    } else if Eval(reg, to, on, depth).Some? {
      EvalLooks(reg, to, on, depth);
      var found, ask := WalkDown(reg, to, on, 0), Asked(reg, on, depth - 1);
      AmountMeans(found, Flags(ask), reg.owns(to, on));
      WalkedAreKept(reg, to, on);
      AmountDecides(Eval(reg, to, on, depth).value, found, KeptGrants(reg, to, on), ask, reg.owns(to, on));
    }
  }

  lemma WalkedAreKept(reg: Registry, to: Point, on: Point)
    ensures forall g :: g in WalkDown(reg, to, on, 0) <==> g in KeptGrants(reg, to, on)
  {
    hide Selector.MatchesFoundOpt, Display, WalkDown;
    WalkMembers(reg, to, on, 0);
  }

  /** Whenever the recursion ends, at whatever depth, the walk finds that access. */
  method AccessTo(reg: Registry, to: Point, on: Point, ghost depth: nat) returns (r: AccessFound)
    requires Eval(reg, to, on, depth).Some?
    ensures Eval(reg, to, on, depth) == Some(r)
    ensures to == reg.hyperUser ==> r == if reg.owns(to, on) then SuperAccess else SuperOwnerAccess
    ensures to != reg.hyperUser && to == on && reg.owns(to, on) ==> r == OwnerAccess
    ensures to != reg.hyperUser && !(to == on && reg.owns(to, on)) ==>
              depth > 0 && GrantsDecide(r, KeptGrants(reg, to, on), Asked(reg, on, depth - 1), reg.owns(to, on))
    decreases depth, 1
  {
    AccessInFull(reg, to, on, depth);
    hide GrantsDecide, KeptGrants;
    hide AnySuper, AnyGives, AnySets, NoneClears, AllKeep, Keep, Amount, Gathered, AllAnswered, Kept, FoldGiven,
      Eval, Asked, WalkDown, Flags, Display;
    var isOwner := reg.owns(to, on);
    EvalLooks(reg, to, on, depth);
    if reg.hyperUser == to {
      return if isOwner then SuperAccess else SuperOwnerAccess;
    }
    if to == on && isOwner {
      return OwnerAccess;
    }
    var toPath, onPath := reg.hierarchy(to), reg.hierarchy(on);
    var traversal := on;
    var privileges := Enumerated({});
    var permissions := new Permissions(NONE);
    var levelAnds: seq<seq<Mask>> := [];
    ghost var ask := Asked(reg, on, depth - 1);
    ghost var all := WalkDown(reg, to, on, 0);
    ghost var seen: seq<Grant> := [];
    ghost var n := |on.segments| + 1;
    NothingGathered(Flags(ask));
    NothingBeyond(reg, to, on);
    assert on.segments[..|on.segments|] == on.segments;
    while true
      invariant 0 < n <= |on.segments| + 1
      invariant traversal == Prefix(on, n - 1)
      invariant fresh(permissions.child) && fresh(permissions.particle)
      invariant seen == WalkDown(reg, to, on, n)
      invariant Gathered(seen, Flags(ask), privileges, permissions.View(), levelAnds)
      decreases n
    {
      var found := Fetch(reg.grants, Display(traversal), onPath, toPath);
      LevelOfWalk(reg, to, on, n - 1, ask);
      ghost var before := permissions.View();
      NoSuperGathered(seen, Flags(ask), privileges, before, levelAnds);
      var super, more := AddLevel(reg, on, found, privileges, permissions, depth - 1);
      if super {
        SuperEndsWalk(reg, to, on, n - 1, Flags(ask), isOwner);
        return if isOwner then SuperOwnerAccess else SuperAccess;
      }
      var ands := AndMasks(found);
      GatherLevel(seen, found, Flags(ask), privileges, more, before, permissions.View(), levelAnds, ands);
      seen, privileges, levelAnds := seen + found, more, levelAnds + [ands];
      n := n - 1;
      if traversal.IsRoot() {
        break;
      } else {
        traversal := PointDef(traversal.route, traversal.segments[..|traversal.segments| - 1]);
      }
    }
    ghost var gathered := permissions.View();
    if isOwner {
      r := OwnerAccess;
    } else {
      ApplyAnds(levelAnds, permissions);
      r := GrantedAccess(privileges, permissions.View());
    }
    GatheredAmount(r, seen, Flags(ask), isOwner, privileges, gathered, levelAnds);
  }

  /** What the walk holds after the grants `seen`: no super grant, all that is given and set, the And masks by level. */
  ghost predicate Gathered(seen: seq<Grant>, grantors: Grantors, privileges: Privileges, mask: Mask,
                           levels: seq<seq<Mask>>) {
    && !AnySuper(seen, grantors)
    && privileges == FoldGiven(Enumerated({}), seen, grantors)
    && (forall b :: mask.Bit(b) <==> AnySets(seen, grantors, b))
    && (forall b :: AllKeep(levels, b) <==> NoneClears(seen, b))
  }

  lemma NothingGathered(grantors: Grantors)
    ensures Gathered([], grantors, Enumerated({}), NONE, [])
  {
  }

  lemma GatherLevel(seen: seq<Grant>, found: seq<Grant>, grantors: Grantors, privileges: Privileges, more: Privileges,
                    mask: Mask, moreMask: Mask, levels: seq<seq<Mask>>, ands: seq<Mask>)
    requires Gathered(seen, grantors, privileges, mask, levels)
    requires !AnySuper(found, grantors)
    requires more == FoldGiven(privileges, found, grantors)
    requires forall b :: moreMask.Bit(b) <==> mask.Bit(b) || AnySets(found, grantors, b)
    requires forall b :: Keep(ands, b) <==> NoneClears(found, b)
    ensures Gathered(seen + found, grantors, more, moreMask, levels + [ands])
  {
    hide AnySuper, AnyGives, AnySets, NoneClears, AllKeep, Keep;
    GrantsConcat(seen, found, grantors);
    FoldGivenConcat(Enumerated({}), seen, found, grantors);
    AllKeepConcat(levels, [ands]);
    AllKeepAlone(ands);
  }

  lemma NoSuperGathered(seen: seq<Grant>, grantors: Grantors, privileges: Privileges, mask: Mask,
                        levels: seq<seq<Mask>>)
    requires Gathered(seen, grantors, privileges, mask, levels)
    ensures !AnySuper(seen, grantors)
  {
  }

  lemma GatheredAmount(r: AccessFound, seen: seq<Grant>, grantors: Grantors, isOwner: bool,
                       privileges: Privileges, mask: Mask, levels: seq<seq<Mask>>)
    requires Gathered(seen, grantors, privileges, mask, levels)
    requires if isOwner then r == OwnerAccess
             else r.GrantedAccess? && r.privileges == privileges &&
                  forall b :: r.permissions.Bit(b) <==> mask.Bit(b) && AllKeep(levels, b)
    ensures r == Amount(seen, grantors, isOwner)
  {
    hide AnySuper, AnyGives, AnySets, NoneClears, AllKeep, Keep, FoldGiven;
    if !isOwner {
      SameBitsSameMask(r.permissions, Amount(seen, grantors, isOwner).permissions);
    }
  }

  lemma {:induction false} WalkPrefix(reg: Registry, to: Point, on: Point, n: nat)
    requires n <= |on.segments| + 1
    ensures WalkDown(reg, to, on, n) <= WalkDown(reg, to, on, 0)
    decreases n
  {
    if n > 0 {
      WalkPrefix(reg, to, on, n - 1);
    }
  }

  /** The grants of one level are answered, when the levels before hold no super grant. */
  lemma LevelOfWalk(reg: Registry, to: Point, on: Point, n: nat, ask: Answers)
    requires n <= |on.segments| && AllAnswered(WalkDown(reg, to, on, 0), ask)
    ensures var found := Kept(reg.grants, Display(Prefix(on, n)), reg.hierarchy(on), reg.hierarchy(to));
            && WalkDown(reg, to, on, n) == WalkDown(reg, to, on, n + 1) + found
            && (!AnySuper(WalkDown(reg, to, on, n + 1), Flags(ask)) ==> AllAnswered(found, ask))
  {
    hide AnySuper, Kept;
    var all, seen := WalkDown(reg, to, on, 0), WalkDown(reg, to, on, n + 1);
    var found := Kept(reg.grants, Display(Prefix(on, n)), reg.hierarchy(on), reg.hierarchy(to));
    WalkPrefix(reg, to, on, n);
    assert seen + found <= all;
    hide WalkDown;
    if !AnySuper(seen, Flags(ask)) {
      forall i | 0 <= i < |found| && !AnySuper(found[..i], Flags(ask))
        ensures ask(found[i].byParticle).Some?
      {
        assert all[..|seen| + i] == seen + found[..i] && all[|seen| + i] == found[i];
        GrantsConcat(seen, found[..i], Flags(ask));
      }
    }
  }

  /** A super grant decides, whatever lies above. */
  lemma SuperEndsWalk(reg: Registry, to: Point, on: Point, n: nat, grantors: Grantors, isOwner: bool)
    requires n <= |on.segments|
    requires AnySuper(Kept(reg.grants, Display(Prefix(on, n)), reg.hierarchy(on), reg.hierarchy(to)), grantors)
    ensures Amount(WalkDown(reg, to, on, 0), grantors, isOwner) == if isOwner then SuperOwnerAccess else SuperAccess
  {
    hide Kept, AnySuper;
    var all, seen := WalkDown(reg, to, on, 0), WalkDown(reg, to, on, n + 1);
    var found := Kept(reg.grants, Display(Prefix(on, n)), reg.hierarchy(on), reg.hierarchy(to));
    WalkPrefix(reg, to, on, n);
    assert seen + found <= all;
    hide WalkDown;
    var rest := all[|seen + found|..];
    assert all == (seen + found) + rest;
    GrantsConcat(seen + found, rest, grantors);
    GrantsConcat(seen, found, grantors);
  }

  // ---------------------------------------------------------------- the walk misses no grant

  /** The printed forms of a local and of another point differ. */
  lemma LocalPrintsApart(local: string, p: Point, isVersion: string -> bool)
    requires WellRouted(p, isVersion) && !p.route.This? && RouteEnd(local) == None
    ensures Display(p) != local
  {
    RouteOfDisplay(p, isVersion);
  }

  lemma PrefixWellRouted(p: Point, n: nat, isVersion: string -> bool)
    requires WellRouted(p, isVersion) && n <= |p.segments|
    ensures WellRouted(Prefix(p, n), isVersion)
  {
    PrefixWellFormed(p, n, isVersion);
  }

  /**
  For a well-formed local point every grant whose selectors match is found: the
  printed query root of its selector is the printed form of one of the prefixes
  the walk comes by.  For other routes none is, as query roots are local.
   */
  lemma WalkFindsEveryMatch(grant: Grant, on: Point, onPath: Hierarchy, toPath: Hierarchy, isVersion: string -> bool)
    requires WellRouted(on, isVersion) && HierarchyOf(onPath, on)
    requires QueryPath(QueryRootSegs(grant.onPoint.hops))
    ensures FoundFrom(grant, on, 0, onPath, toPath) <==> on.route.This? && Matching(grant, onPath, toPath)
  {
    if Matching(grant, onPath, toPath) {
      var n := |QueryRootSegs(grant.onPoint.hops)|;
      QueryRootPrintsAsPrefix(grant.onPoint, onPath, on, isVersion);
      PrefixWellRouted(on, n, isVersion);
      assert StoredUnder(grant) == "" + Postfix(Prefix(on, n)) == Postfix(Prefix(on, n));
      if on.route.This? {
        assert StoredUnder(grant) == Display(Prefix(on, n));
      } else {
        hide Postfix, Display, StoredUnder, WellRouted, RouteEnd;
        LocalPostfix(on, n, isVersion);
        forall m | 0 <= m <= |on.segments|
          ensures StoredUnder(grant) != Display(Prefix(on, m))
        {
          PrefixWellRouted(on, m, isVersion);
          LocalPrintsApart(StoredUnder(grant), Prefix(on, m), isVersion);
        }
      }
    }
  }

  lemma LocalPostfix(p: Point, n: nat, isVersion: string -> bool)
    requires WellRouted(p, isVersion) && n <= |p.segments|
    ensures RouteEnd(Postfix(Prefix(p, n))) == None
  {
    PrefixWellRouted(p, n, isVersion);
    LocalHasNoRoute(Prefix(p, n), isVersion);
  }

  /** All grants with matching selectors. */
  ghost function MatchingGrants(reg: Registry, to: Point, on: Point): set<Grant> {
    set g | g in reg.grants
            && g.toPoint.MatchesFoundOpt(reg.hierarchy(to)) && g.onPoint.MatchesFoundOpt(reg.hierarchy(on))
  }

  /**
  So the access found is what all grants with matching selectors decide, wherever
  they are stored; for a point with a route none of them counts.
   */
  lemma AccessIsOfMatches(reg: Registry, to: Point, on: Point, depth: nat, isVersion: string -> bool)
    requires to != reg.hyperUser && !(to == on && reg.owns(to, on)) && Eval(reg, to, on, depth).Some?
    requires WellRouted(on, isVersion) && HierarchyOf(reg.hierarchy(on), on)
    requires forall g :: g in reg.grants ==> QueryPath(QueryRootSegs(g.onPoint.hops))
    ensures depth > 0
    ensures GrantsDecide(Eval(reg, to, on, depth).value, if on.route.This? then MatchingGrants(reg, to, on) else {},
                         Asked(reg, on, depth - 1), reg.owns(to, on))
  {
    hide FoundFrom, Matching, GrantsDecide, WellRouted, HierarchyOf, Eval, Asked, QueryPath, Display;
    AccessInFull(reg, to, on, depth);
    forall g | g in reg.grants
      ensures g in KeptGrants(reg, to, on) <==> on.route.This? && g in MatchingGrants(reg, to, on)
    {
      KeptIsFound(reg, to, on, g);
      MatchingIsMember(reg, to, on, g);
      WalkFindsEveryMatch(g, on, reg.hierarchy(on), reg.hierarchy(to), isVersion);
    }
    assert KeptGrants(reg, to, on) == if on.route.This? then MatchingGrants(reg, to, on) else {};
  }

  lemma KeptIsFound(reg: Registry, to: Point, on: Point, g: Grant)
    ensures g in KeptGrants(reg, to, on) <==>
            g in reg.grants && FoundFrom(g, on, 0, reg.hierarchy(on), reg.hierarchy(to))
  {
    hide Selector.MatchesFoundOpt, Display;
  }

  lemma MatchingIsMember(reg: Registry, to: Point, on: Point, g: Grant)
    ensures g in MatchingGrants(reg, to, on) <==>
            g in reg.grants && Matching(g, reg.hierarchy(on), reg.hierarchy(to))
  {
    hide Selector.MatchesFoundOpt;
  }

  // ---------------------------------------------------------------- when asking ends

  /** Answers at one depth are those of all greater depths. */
  ghost predicate Extends(more: Answers, ask: Answers) {
    forall p :: ask(p).Some? ==> more(p) == ask(p)
  }

  lemma FlagsAgree(found: seq<Grant>, ask: Answers, more: Answers)
    requires forall g :: g in found ==> ask(g.byParticle).Some?
    requires Extends(more, ask)
    ensures forall g :: g in found ==> Flags(more)(g.byParticle) == Flags(ask)(g.byParticle)
    ensures AnySuper(found, Flags(more)) == AnySuper(found, Flags(ask))
    ensures forall isOwner :: Amount(found, Flags(more), isOwner) == Amount(found, Flags(ask), isOwner)
  {
    assert forall g :: g in found ==> IsSuper(g, Flags(more)) == IsSuper(g, Flags(ask));
    assert forall g, p :: g in found ==> Gives(g, Flags(more), p) == Gives(g, Flags(ask), p);
    assert forall g, b :: g in found ==> Sets(g, Flags(more), b) == Sets(g, Flags(ask), b);
    FoldGivenAgrees(Enumerated({}), found, Flags(ask), Flags(more));
    assert forall b :: AnySets(found, Flags(more), b) == AnySets(found, Flags(ask), b);
    SameBitsSameMask(MaskOf(b => AnySets(found, Flags(more), b) && NoneClears(found, b)),
                     MaskOf(b => AnySets(found, Flags(ask), b) && NoneClears(found, b)));
  }

  lemma {:induction false} FoldGivenAgrees(privileges: Privileges, found: seq<Grant>, a: Grantors, b: Grantors)
    requires forall g :: g in found ==> a(g.byParticle) == b(g.byParticle)
    ensures FoldGiven(privileges, found, a) == FoldGiven(privileges, found, b)
  {
    if |found| > 0 {
      assert forall g :: g in found[..|found| - 1] ==> g in found;
      FoldGivenAgrees(privileges, found[..|found| - 1], a, b);
    }
  }

  lemma AnsweredGoOn(found: seq<Grant>, ask: Answers, more: Answers, i: int)
    requires AllAnswered(found, ask) && Extends(more, ask) && 0 <= i < |found|
    requires !AnySuper(found[..i], Flags(more))
    ensures !AnySuper(found[..i], Flags(ask)) && ask(found[i].byParticle).Some?
  {
    assert forall g :: IsSuper(g, Flags(ask)) ==> IsSuper(g, Flags(more));
  }

  /** Once all who are asked answer, more answers change nothing. */
  lemma AnsweredAmount(found: seq<Grant>, ask: Answers, more: Answers, isOwner: bool)
    requires AllAnswered(found, ask) && Extends(more, ask)
    ensures AllAnswered(found, more)
    ensures Amount(found, Flags(more), isOwner) == Amount(found, Flags(ask), isOwner)
  {
    forall i | 0 <= i < |found| && !AnySuper(found[..i], Flags(more))
      ensures more(found[i].byParticle).Some?
    {
      AnsweredGoOn(found, ask, more, i);
    }
    if AnySuper(found, Flags(ask)) {
      assert forall g :: IsSuper(g, Flags(ask)) ==> IsSuper(g, Flags(more));
      assert AnySuper(found, Flags(more));
    } else {
      hide Flags, Amount, FoldGiven;
      forall g | g in found
        ensures ask(g.byParticle).Some?
      {
        var i :| 0 <= i < |found| && found[i] == g;
        assert forall x :: x in found[..i] ==> x in found;
        assert !AnySuper(found[..i], Flags(ask));
      }
      FlagsAgree(found, ask, more);
    }
  }

  /** The access found does not depend on the depth at which asking ends. */
  lemma {:induction false} DepthDoesNotMatter(reg: Registry, to: Point, on: Point, depth: nat, deeper: nat)
    requires depth <= deeper && Eval(reg, to, on, depth).Some?
    ensures Eval(reg, to, on, deeper) == Eval(reg, to, on, depth)
    decreases depth
  {
    hide Eval, Asked, Amount, AllAnswered, WalkDown, Flags;
    EvalLooks(reg, to, on, depth);
    if Stop(reg, to, on).Some? {
      EvalStops(reg, to, on, deeper);
    } else {
      var ask, more := Asked(reg, on, depth - 1), Asked(reg, on, deeper - 1);
      AskedIsEval(reg, on, depth - 1);
      AskedIsEval(reg, on, deeper - 1);
      forall p | ask(p).Some?
        ensures more(p) == ask(p)
      {
        DepthDoesNotMatter(reg, p, on, depth - 1, deeper - 1);
      }
      AnsweredAmount(WalkDown(reg, to, on, 0), ask, more, reg.owns(to, on));
      EvalStep(reg, to, on, deeper - 1);
    }
  }

  /** The least depth at which asking ends, or 0. */
  ghost function LeastDepth(reg: Registry, to: Point, on: Point): (n: nat)
    ensures Ends(reg, to, on) ==> Eval(reg, to, on, n).Some?
    ensures forall depth: nat :: Eval(reg, to, on, depth).Some? ==> n <= depth
  {
    if Ends(reg, to, on) then
      var depth: nat :| Eval(reg, to, on, depth).Some?;
      LeastUpTo(reg, to, on, depth)
    else 0
  }

  ghost function LeastUpTo(reg: Registry, to: Point, on: Point, depth: nat): (n: nat)
    requires Eval(reg, to, on, depth).Some?
    ensures Eval(reg, to, on, n).Some?
    ensures forall d: nat :: Eval(reg, to, on, d).Some? ==> n <= d
    decreases depth
  {
    hide Eval;
    if depth > 0 && Eval(reg, to, on, depth - 1).Some? then LeastUpTo(reg, to, on, depth - 1)
    else NoLessDepth(reg, to, on, depth); depth
  }

  lemma NoLessDepth(reg: Registry, to: Point, on: Point, depth: nat)
    requires depth > 0 ==> Eval(reg, to, on, depth - 1).None?
    ensures forall d: nat :: Eval(reg, to, on, d).Some? ==> depth <= d
  {
    hide Eval;
    forall d: nat | d < depth && Eval(reg, to, on, d).Some?
      ensures false
    {
      DepthDoesNotMatter(reg, to, on, d, depth - 1);
    }
  }

  /** The answers that are ever given, at whatever depth. */
  ghost function Final(reg: Registry, on: Point): Answers {
    p => Eval(reg, p, on, LeastDepth(reg, p, on))
  }

  lemma FinalExtends(reg: Registry, on: Point, depth: nat)
    ensures Extends(Final(reg, on), Asked(reg, on, depth))
  {
    hide Eval, Asked, LeastDepth;
    AskedIsEval(reg, on, depth);
    forall p | Eval(reg, p, on, depth).Some?
      ensures Final(reg, on)(p) == Eval(reg, p, on, depth)
    {
      assert Ends(reg, p, on);
      LeastIsLeast(reg, p, on);
      DepthDoesNotMatter(reg, p, on, LeastDepth(reg, p, on), depth);
    }
  }

  lemma LeastIsLeast(reg: Registry, to: Point, on: Point)
    ensures Ends(reg, to, on) ==> Eval(reg, to, on, LeastDepth(reg, to, on)).Some?
    ensures forall depth: nat :: Eval(reg, to, on, depth).Some? ==> LeastDepth(reg, to, on) <= depth
  {
    hide Eval, LeastDepth;
  }

  /** The walk asks for the access of the i-th grantor: no grant before it turns out super. */
  ghost predicate IsAsked(reg: Registry, to: Point, on: Point, i: int) {
    && Stop(reg, to, on).None?
    && 0 <= i < |WalkDown(reg, to, on, 0)|
    && !AnySuper(WalkDown(reg, to, on, 0)[..i], Flags(Final(reg, on)))
  }

  /** With a super grant of the hyperuser in front asking ends, whatever else is granted: nothing behind it is asked. */
  lemma HyperSuperShields(reg: Registry, to: Point, on: Point)
    requires var walk := WalkDown(reg, to, on, 0);
             |walk| > 0 && walk[0].kind == Super && walk[0].byParticle == reg.hyperUser
    ensures Ends(reg, to, on) && Eval(reg, to, on, 1).Some?
  {
    hide WalkDown;
    var found, ask := WalkDown(reg, to, on, 0), Asked(reg, on, 0);
    assert ask(reg.hyperUser).Some? && Flags(ask)(reg.hyperUser).super;
    forall i | 0 < i < |found|
      ensures AnySuper(found[..i], Flags(ask))
    {
      assert found[0] in found[..i] && IsSuper(found[0], Flags(ask));
    }
    assert AllAnswered(found, ask);
    assert Eval(reg, to, on, 1).Some?;
  }

  /** Whoever a member makes the walk ask is a member, and ranks lower. */
  ghost predicate RankedFrom(reg: Registry, on: Point, members: iset<Point>, rank: Point -> nat) {
    forall to, i :: to in members && IsAsked(reg, to, on, i) ==>
      && WalkDown(reg, to, on, 0)[i].byParticle in members
      && rank(WalkDown(reg, to, on, 0)[i].byParticle) < rank(to)
  }

  lemma SuperBefore(found: seq<Grant>, j: int, i: int, grantors: Grantors)
    requires 0 <= j <= i <= |found| && !AnySuper(found[..i], grantors)
    ensures !AnySuper(found[..j], grantors)
  {
    assert forall g :: g in found[..j] ==> g in found[..i];
  }

  /** As long as no super grant has answered, those before have answered and so the i-th is asked. */
  lemma {:induction false} AskedInTurn(reg: Registry, to: Point, on: Point, depth: nat, i: nat,
                                       members: iset<Point>, rank: Point -> nat)
    requires Stop(reg, to, on).None? && to in members && RankedFrom(reg, on, members, rank)
    requires i < |WalkDown(reg, to, on, 0)|
    requires !AnySuper(WalkDown(reg, to, on, 0)[..i], Flags(Asked(reg, on, depth)))
    requires forall p :: p in members && rank(p) < rank(to) ==> Asked(reg, on, depth)(p).Some?
    ensures Asked(reg, on, depth)(WalkDown(reg, to, on, 0)[i].byParticle).Some?
    decreases i
  {
    hide Asked, WalkDown, Stop, Flags, Final;
    var found, ask := WalkDown(reg, to, on, 0), Asked(reg, on, depth);
    forall j | 0 <= j < i
      ensures ask(found[j].byParticle).Some?
    {
      SuperBefore(found, j, i, Flags(ask));
      AskedInTurn(reg, to, on, depth, j, members, rank);
    }
    FinalExtends(reg, on, depth);
    hide AnySuper;
    forall g | g in found[..i]
      ensures ask(g.byParticle).Some?
    {
      var j :| 0 <= j < i && found[j] == g;
    }
    FlagsAgree(found[..i], ask, Final(reg, on));
    assert IsAsked(reg, to, on, i);
  }

  lemma {:induction false} RankedFromEnds(reg: Registry, to: Point, on: Point, members: iset<Point>, rank: Point -> nat)
    requires to in members && RankedFrom(reg, on, members, rank)
    ensures Eval(reg, to, on, rank(to) + 1).Some?
    decreases rank(to)
  {
    hide Eval, Asked, Amount, WalkDown, Flags, AnySuper, RankedFrom;
    if Stop(reg, to, on).Some? {
      EvalStops(reg, to, on, rank(to) + 1);
    } else {
      var found, ask := WalkDown(reg, to, on, 0), Asked(reg, on, rank(to));
      AskedIsEval(reg, on, rank(to));
      forall p | p in members && rank(p) < rank(to)
        ensures ask(p).Some?
      {
        RankedFromEnds(reg, p, on, members, rank);
        DepthDoesNotMatter(reg, p, on, rank(p) + 1, rank(to));
      }
      forall i: nat | i < |found| && !AnySuper(found[..i], Flags(ask))
        ensures ask(found[i].byParticle).Some?
      {
        AskedInTurn(reg, to, on, rank(to), i, members, rank);
      }
      EvalStep(reg, to, on, rank(to));
    }
  }

  /** Those who are asked have their answers, and at less depth. */
  lemma GrantorsEndFirst(reg: Registry, to: Point, on: Point, i: int)
    requires Ends(reg, to, on) && IsAsked(reg, to, on, i)
    ensures Ends(reg, WalkDown(reg, to, on, 0)[i].byParticle, on)
    ensures LeastDepth(reg, WalkDown(reg, to, on, 0)[i].byParticle, on) < LeastDepth(reg, to, on)
  {
    hide Eval, Asked, WalkDown, LeastDepth, Flags, Final, Amount, AnySuper, AllAnswered;
    LeastIsLeast(reg, to, on);
    var depth, found := LeastDepth(reg, to, on), WalkDown(reg, to, on, 0);
    EvalLooks(reg, to, on, depth);
    var ask := Asked(reg, on, depth - 1);
    FinalExtends(reg, on, depth - 1);
    AnsweredGoOn(found, ask, Final(reg, on), i);
    AskedIsEval(reg, on, depth - 1);
    LeastIsLeast(reg, found[i].byParticle, on);
  }

  ghost function Enders(reg: Registry, on: Point): iset<Point> {
    iset p | Ends(reg, p, on)
  }

  /** All particles for which asking ends are ranked by the depth at which it does. */
  lemma EndersAreRanked(reg: Registry, on: Point) returns (rank: Point -> nat)
    ensures RankedFrom(reg, on, Enders(reg, on), rank)
  {
    rank := (p: Point) => LeastDepth(reg, p, on);
    hide Ends, LeastDepth, WalkDown, AnySuper, Stop, Final;
    forall to, i | to in Enders(reg, on) && IsAsked(reg, to, on, i)
      ensures WalkDown(reg, to, on, 0)[i].byParticle in Enders(reg, on)
      ensures rank(WalkDown(reg, to, on, 0)[i].byParticle) < rank(to)
    {
      GrantorsEndFirst(reg, to, on, i);
    }
  }

  /**
  Asking ends for a particle exactly when it is among particles that are closed
  under being asked, and ranked so that everyone asked is below the asker.
   */
  lemma EndsIffRankedFrom(reg: Registry, to: Point, on: Point)
    ensures Ends(reg, to, on) <==> exists members, rank :: to in members && RankedFrom(reg, on, members, rank)
  {
    hide RankedFrom, LeastDepth, WalkDown, Stop, Eval, Final;
    if Ends(reg, to, on) {
      var rank := EndersAreRanked(reg, on);
      assert to in Enders(reg, on);
    }
    if members, rank :| to in members && RankedFrom(reg, on, members, rank) {
      RankedFromEnds(reg, to, on, members, rank);
    }
  }

  ghost predicate IsEveryone(members: iset<Point>) {
    forall p :: p in members
  }

  /** For all particles at once: exactly when all are ranked. */
  lemma EveryoneEndsIffRanked(reg: Registry, on: Point)
    ensures (forall to :: Ends(reg, to, on)) <==>
            exists members, rank :: IsEveryone(members) && RankedFrom(reg, on, members, rank)
  {
    hide RankedFrom, LeastDepth, WalkDown, Stop, Eval, Final, Ends;
    if forall to :: Ends(reg, to, on) {
      var rank := EndersAreRanked(reg, on);
      assert IsEveryone(Enders(reg, on));
    }
    if members, rank :| IsEveryone(members) && RankedFrom(reg, on, members, rank) {
      forall to: Point
        ensures Ends(reg, to, on)
      {
        assert to in members;
        EndsIffRankedFrom(reg, to, on);
      }
    }
  }

  /** The same read off the grants alone: everyone who granted what a member is shown is a member, and ranks lower. */
  ghost predicate RankedByGrants(reg: Registry, on: Point, members: iset<Point>, rank: Point -> nat) {
    forall to, g :: to in members && Stop(reg, to, on).None? && g in WalkDown(reg, to, on, 0) ==>
      g.byParticle in members && rank(g.byParticle) < rank(to)
  }

  /** Where those who granted are so ranked asking ends for a particle, and without super grants only there. */
  lemma EndsIfRankedByGrants(reg: Registry, to: Point, on: Point)
    ensures (exists members, rank :: to in members && RankedByGrants(reg, on, members, rank)) ==> Ends(reg, to, on)
    ensures (forall g :: g in reg.grants ==> !g.kind.Super?) && Ends(reg, to, on) ==>
              exists members, rank :: to in members && RankedByGrants(reg, on, members, rank)
  {
    hide WalkDown, Stop, Final, Ends;
    EndsIffRankedFrom(reg, to, on);
    if members, rank :| to in members && RankedByGrants(reg, on, members, rank) {
      assert RankedFrom(reg, on, members, rank);
    }
    if (forall g :: g in reg.grants ==> !g.kind.Super?) && Ends(reg, to, on) {
      var members, rank :| to in members && RankedFrom(reg, on, members, rank);
      forall asker, g | asker in members && Stop(reg, asker, on).None? && g in WalkDown(reg, asker, on, 0)
        ensures g.byParticle in members && rank(g.byParticle) < rank(asker)
      {
        var i := AskedWithoutSuper(reg, asker, on, g);
      }
      assert RankedByGrants(reg, on, members, rank);
    }
  }

  /** Without super grants everyone who granted is asked. */
  lemma AskedWithoutSuper(reg: Registry, to: Point, on: Point, g: Grant) returns (i: int)
    requires forall grant :: grant in reg.grants ==> !grant.kind.Super?
    requires Stop(reg, to, on).None? && g in WalkDown(reg, to, on, 0)
    ensures IsAsked(reg, to, on, i) && WalkDown(reg, to, on, 0)[i] == g
  {
    hide WalkDown, Stop, Final;
    var found := WalkDown(reg, to, on, 0);
    i :| 0 <= i < |found| && found[i] == g;
    WalkMembers(reg, to, on, 0);
    assert forall x :: x in found[..i] ==> x in found;
  }

  /** The walk for the particle goes on, and the first it asks is in the circle. */
  predicate FirstAsksWithin(reg: Registry, on: Point, circle: set<Point>, p: Point) {
    && Stop(reg, p, on).None?
    && |WalkDown(reg, p, on, 0)| > 0
    && WalkDown(reg, p, on, 0)[0].byParticle in circle
  }

  /** Particles whose first kept grant is always by another of them never get an answer. */
  lemma {:induction false} CircleNeverEnds(reg: Registry, on: Point, circle: set<Point>, to: Point, depth: nat)
    requires forall p :: p in circle ==> FirstAsksWithin(reg, on, circle, p)
    requires to in circle
    ensures Eval(reg, to, on, depth).None?
    decreases depth
  {
    hide Eval, Asked, WalkDown, Amount, Flags, AnySuper;
    if depth == 0 {
      EvalStep(reg, to, on, 0);
    } else {
      assert FirstAsksWithin(reg, on, circle, to);
      var found, ask := WalkDown(reg, to, on, 0), Asked(reg, on, depth - 1);
      CircleNeverEnds(reg, on, circle, found[0].byParticle, depth - 1);
      AskedIsEval(reg, on, depth - 1);
      assert found[..0] == [];
      NoSuperInNone(Flags(ask));
      assert !AllAnswered(found, ask);
      hide AllAnswered;
      EvalStep(reg, to, on, depth - 1);
    }
  }

  lemma NoSuperInNone(grantors: Grantors)
    ensures !AnySuper([], grantors)
  {
  }

  function Naming(space: string): Selector {
    Selector(false, [Named(Space(space))])
  }

  function SpacePoint(space: string): Point {
    PointDef(This, [Space(space)])
  }

  /** Two spaces that grant something on a third one to each other. */
  function MutualGrants(kind: GrantKind): Registry {
    Registry([Grant(kind, Naming("c"), Naming("a"), SpacePoint("b")),
              Grant(kind, Naming("c"), Naming("b"), SpacePoint("a"))],
             (_, _) => false, OptHierarchyOfPoint, SpacePoint("hyper"))
  }

  lemma NamingMatches(space: string, other: string)
    ensures Naming(space).MatchesFoundOpt(OptHierarchyOfPoint(SpacePoint(other))) <==> space == other
  {
    PlainSelectorMatches(Naming(space), OptHierarchyOfPoint(SpacePoint(other)));
  }

  /** Whatever they grant, the access of either of them exhausts every depth. */
  lemma MutualGrantsNeverEnd(kind: GrantKind)
    ensures !Ends(MutualGrants(kind), SpacePoint("a"), SpacePoint("c"))
    ensures !Ends(MutualGrants(kind), SpacePoint("b"), SpacePoint("c"))
  {
    hide Eval, WalkDown, Selector.MatchesFoundOpt;
    var reg, on := MutualGrants(kind), SpacePoint("c");
    var circle := {SpacePoint("a"), SpacePoint("b")};
    MutualWalk(kind, "a", "b");
    MutualWalk(kind, "b", "a");
    assert "a"[0] == 'a' && "b"[0] == 'b' && "hyper"[0] == 'h';
    forall to, depth: nat | to in circle
      ensures Eval(reg, to, on, depth).None?
    {
      CircleNeverEnds(reg, on, circle, to, depth);
    }
  }

  lemma MutualWalk(kind: GrantKind, to: string, giver: string)
    requires (to == "a" && giver == "b") || (to == "b" && giver == "a")
    ensures var found := WalkDown(MutualGrants(kind), SpacePoint(to), SpacePoint("c"), 0);
            |found| > 0 && found[0].byParticle == SpacePoint(giver)
  {
    hide WalkDown, Selector.MatchesFoundOpt;
    var reg, on := MutualGrants(kind), SpacePoint("c");
    var onPath, toPath := OptHierarchyOfPoint(on), OptHierarchyOfPoint(SpacePoint(to));
    var shown := Grant(kind, Naming("c"), Naming(to), SpacePoint(giver));
    WalkMembers(reg, SpacePoint(to), on, 0);
    NamingMatches("c", "c");
    NamingMatches(to, to);
    NamingMatches(giver, to);
    assert "a"[0] == 'a' && "b"[0] == 'b';
    assert QueryRootSegs(Naming("c").hops) == [Space("c")];
    assert Prefix(on, 1).segments == [Space("c")];
    assert StoredUnder(shown) == Display(Prefix(on, 1));
    assert shown in reg.grants && FoundFrom(shown, on, 0, onPath, toPath);
    assert forall g :: g in reg.grants && g != shown ==> !Matching(g, onPath, toPath);
    var found := WalkDown(reg, SpacePoint(to), on, 0);
    assert shown in found && found[0] in found;
  }

  /** Asking ends for a third particle there, though not all particles can be ranked. */
  lemma OthersEnd(kind: GrantKind)
    ensures Ends(MutualGrants(kind), SpacePoint("d"), SpacePoint("c"))
    ensures !exists members, rank ::
              IsEveryone(members) && RankedFrom(MutualGrants(kind), SpacePoint("c"), members, rank)
  {
    hide WalkDown, Selector.MatchesFoundOpt, RankedFrom;
    var reg, to, on := MutualGrants(kind), SpacePoint("d"), SpacePoint("c");
    MutualGrantsNeverEnd(kind);
    EveryoneEndsIffRanked(reg, on);
    var found := WalkDown(reg, to, on, 0);
    assert |found| > 0 ==> found[0] in found;
    WalkMembers(reg, to, on, 0);
    assert "a"[0] == 'a' && "b"[0] == 'b' && "d"[0] == 'd';
    NamingMatches("a", "d");
    NamingMatches("b", "d");
    assert forall g :: g in reg.grants ==> !Matching(g, reg.hierarchy(on), reg.hierarchy(to));
    hide AnySuper, Stop, Amount;
    if Stop(reg, to, on).Some? {
      EvalStops(reg, to, on, 0);
    } else {
      EvalStep(reg, to, on, 0);
    }
    assert Eval(reg, to, on, 1).Some?;
  }
}
