/**
Access: permissions and privileges, and the grants folded into them.

The permission structs are updated in place by the code; they are classes
here.  Their values, and every result about folding grants, live in the
datatypes ChildMask, ParticleMask and Mask.
 */
module Access {
  import opened Outcomes

  datatype ChildMask = ChildMask(create: bool, select: bool, delete: bool) {
    function Or(other: ChildMask): ChildMask {
      ChildMask(create || other.create, select || other.select, delete || other.delete)
    }

    function And(other: ChildMask): ChildMask {
      ChildMask(create && other.create, select && other.select, delete && other.delete)
    }
  }

  datatype ParticleMask = ParticleMask(read: bool, write: bool, execute: bool) {
    function Or(other: ParticleMask): ParticleMask {
      ParticleMask(read || other.read, write || other.write, execute || other.execute)
    }

    function And(other: ParticleMask): ParticleMask {
      ParticleMask(read && other.read, write && other.write, execute && other.execute)
    }
  }

  datatype Mask = Mask(child: ChildMask, particle: ParticleMask) {
    function Or(other: Mask): Mask {
      Mask(child.Or(other.child), particle.Or(other.particle))
    }

    function And(other: Mask): Mask {
      Mask(child.And(other.child), particle.And(other.particle))
    }

    /** This mask grants nothing that `other` does not grant. */
    predicate Within(other: Mask) {
      forall bit :: Bit(bit) ==> other.Bit(bit)
    }

    predicate Bit(bit: PermissionBit) {
      match bit
      case Create => child.create
      case Select => child.select
      case Delete => child.delete
      case Read => particle.read
      case Write => particle.write
      case Execute => particle.execute
    }
  }

  datatype PermissionBit = Create | Select | Delete | Read | Write | Execute

  const FULL := Mask(ChildMask(true, true, true), ParticleMask(true, true, true))
  const NONE := Mask(ChildMask(false, false, false), ParticleMask(false, false, false))

  /** The names of the six permissions, and what full and no permissions are. */
  lemma BitsByName(c: bool, s: bool, d: bool, r: bool, w: bool, x: bool)
    ensures var mask := Mask(ChildMask(c, s, d), ParticleMask(r, w, x));
            && mask.Bit(Create) == c && mask.Bit(Select) == s && mask.Bit(Delete) == d
            && mask.Bit(Read) == r && mask.Bit(Write) == w && mask.Bit(Execute) == x
    ensures forall bit :: FULL.Bit(bit) && !NONE.Bit(bit)
  {
  }

  lemma SameBitsSameMask(a: Mask, b: Mask)
    ensures a == b <==> forall bit :: a.Bit(bit) == b.Bit(bit)
  {
    if forall bit :: a.Bit(bit) == b.Bit(bit) {
      assert a.Bit(Create) == b.Bit(Create) && a.Bit(Select) == b.Bit(Select) && a.Bit(Delete) == b.Bit(Delete);
      assert a.Bit(Read) == b.Bit(Read) && a.Bit(Write) == b.Bit(Write) && a.Bit(Execute) == b.Bit(Execute);
    }
  }

  class ChildPerms {
    var create: bool
    var select: bool
    var delete: bool

    constructor (mask: ChildMask)
      ensures View() == mask
    {
      create, select, delete := mask.create, mask.select, mask.delete;
    }

    function View(): ChildMask
      reads this
    {
      ChildMask(create, select, delete)
    }

    method Or(block: ChildMask)
      modifies this
      ensures View() == old(View()).Or(block)
      ensures create == (old(create) || block.create)
      ensures select == (old(select) || block.select)
      ensures delete == (old(delete) || block.delete)
    {
      create := create || block.create;
      select := select || block.select;
      delete := delete || block.delete;
    }

    method And(block: ChildMask)
      modifies this
      ensures View() == old(View()).And(block)
      ensures create == (old(create) && block.create)
      ensures select == (old(select) && block.select)
      ensures delete == (old(delete) && block.delete)
    {
      create := create && block.create;
      select := select && block.select;
      delete := delete && block.delete;
    }
  }

  class ParticlePerms {
    var read: bool
    var write: bool
    var execute: bool

    constructor (mask: ParticleMask)
      ensures View() == mask
    {
      read, write, execute := mask.read, mask.write, mask.execute;
    }

    function View(): ParticleMask
      reads this
    {
      ParticleMask(read, write, execute)
    }

    method Or(block: ParticleMask)
      modifies this
      ensures View() == old(View()).Or(block)
      ensures read == (old(read) || block.read)
      ensures write == (old(write) || block.write)
      ensures execute == (old(execute) || block.execute)
    {
      read := read || block.read;
      write := write || block.write;
      execute := execute || block.execute;
    }

    method And(block: ParticleMask)
      modifies this
      ensures View() == old(View()).And(block)
      ensures read == (old(read) && block.read)
      ensures write == (old(write) && block.write)
      ensures execute == (old(execute) && block.execute)
    {
      read := read && block.read;
      write := write && block.write;
      execute := execute && block.execute;
    }
  }

  class Permissions {
    const child: ChildPerms
    const particle: ParticlePerms

    constructor (mask: Mask)
      ensures View() == mask
      ensures fresh(child) && fresh(particle)
    {
      child := new ChildPerms(mask.child);
      particle := new ParticlePerms(mask.particle);
    }

    function View(): Mask
      reads child, particle
    {
      Mask(child.View(), particle.View())
    }

    method Or(permissions: Mask)
      modifies child, particle
      ensures View() == old(View()).Or(permissions)
      ensures forall bit :: View().Bit(bit) <==> old(View()).Bit(bit) || permissions.Bit(bit)
    {
      child.Or(permissions.child);
      particle.Or(permissions.particle);
    }

    method And(permissions: Mask)
      modifies child, particle
      ensures View() == old(View()).And(permissions)
      ensures forall bit :: View().Bit(bit) <==> old(View()).Bit(bit) && permissions.Bit(bit)
    {
      child.And(permissions.child);
      particle.And(permissions.particle);
    }
  }

  // ---------------------------------------------------------------- privileges

  datatype Privilege = FullPrivilege | SinglePrivilege(name: string)

  datatype Privileges = FullPrivileges | Enumerated(privileges: set<string>) {
    predicate Has(privilege: string) {
      FullPrivileges? || privilege in privileges
    }

    /** The `|` of a privilege onto privileges. */
    function With(privilege: Privilege): Privileges {
      match (privilege, this)
      case (FullPrivilege, _) => FullPrivileges
      case (_, FullPrivileges) => FullPrivileges
      case (SinglePrivilege(name), Enumerated(privileges)) => Enumerated(privileges + {name})
    }
  }

  /** Full privileges hold every one, enumerated ones those in the set; a further privilege adds itself. */
  lemma PrivilegesHold(privileges: Privileges, more: Privilege, name: string)
    ensures privileges.Has(name) <==>
            privileges == FullPrivileges || (privileges.Enumerated? && name in privileges.privileges)
    ensures privileges.With(more).Has(name) <==>
            privileges.Has(name) || more == FullPrivilege || more == SinglePrivilege(name)
  {
  }

  method EnumeratedOr(self: set<string>, other: set<string>) returns (r: set<string>)
    ensures r == self + other
  {
    r := self;
    var rest := other;
    while rest != {}
      invariant rest <= other
      invariant r == self + (other - rest)
      decreases rest
    {
      var p :| p in rest;
      if p !in r {
        r := r + {p};
      }
      rest := rest - {p};
    }
  }

  method EnumeratedAnd(self: set<string>, other: set<string>) returns (r: set<string>)
    ensures r == self * other
  {
    r := self;
    var rest := self;
    while rest != {}
      invariant rest <= self
      invariant r == (self * other) + (rest * self)
      decreases rest
    {
      var p :| p in rest;
      if p !in other {
        r := r - {p};
      }
      rest := rest - {p};
    }
  }

  method OrPrivileges(self: Privileges, other: Privileges) returns (r: Privileges)
    ensures forall p :: r.Has(p) <==> self.Has(p) || other.Has(p)
    ensures self.Enumerated? && other.Enumerated? ==> r == Enumerated(self.privileges + other.privileges)
    ensures r.FullPrivileges? <==> self.FullPrivileges? || other.FullPrivileges?
  {
    match (self, other) {
      case (FullPrivileges, _) => r := self;
      case (_, FullPrivileges) => r := FullPrivileges;
      case (Enumerated(mine), Enumerated(theirs)) =>
        var both := EnumeratedOr(mine, theirs);
        r := Enumerated(both);
    }
  }

  method AndPrivileges(self: Privileges, other: Privileges) returns (r: Privileges)
    ensures r == CommonPrivileges(self, other)
    ensures self.Enumerated? && other.Enumerated? ==> r == Enumerated(self.privileges * other.privileges)
    ensures self.FullPrivileges? ==> r == other
    ensures other.FullPrivileges? ==> r == self
  {
    match (self, other) {
      case (_, FullPrivileges) => r := self;
      case (FullPrivileges, _) => r := other;
      case (Enumerated(mine), Enumerated(theirs)) =>
        var both := EnumeratedAnd(mine, theirs);
        r := Enumerated(both);
    }
  }

  function CommonPrivileges(a: Privileges, b: Privileges): (r: Privileges)
    ensures forall p :: r.Has(p) <==> a.Has(p) && b.Has(p)
    ensures r.FullPrivileges? <==> a.FullPrivileges? && b.FullPrivileges?
  {
    if a.FullPrivileges? then b
    else if b.FullPrivileges? then a
    else Enumerated(a.privileges * b.privileges)
  }

  // ---------------------------------------------------------------- grants

  datatype MaskKind = OrMask | AndMask

  datatype GrantKind =
    | Super
    | PrivilegeGrant(privilege: Privilege)
    | MaskGrant(kind: MaskKind, mask: Mask)

  function AddToMask(mask: Mask, grant: GrantKind): Mask {
    match grant
    case MaskGrant(OrMask, other) => mask.Or(other)
    case MaskGrant(AndMask, other) => mask.And(other)
    case _ => mask
  }

  function AddToPrivileges(privileges: Privileges, grant: GrantKind): Privileges {
    match grant
    case PrivilegeGrant(privilege) => privileges.With(privilege)
    case _ => privileges
  }

  class EnumeratedAccess {
    const permissions: Permissions
    var privileges: Privileges

    constructor (mask: Mask, privileges: Privileges)
      ensures permissions.View() == mask && this.privileges == privileges
      ensures fresh(permissions.child) && fresh(permissions.particle)
    {
      permissions := new Permissions(mask);
      this.privileges := privileges;
    }

    method Add(grant: GrantKind)
      modifies this, permissions.child, permissions.particle
      ensures permissions.View() == AddToMask(old(permissions.View()), grant)
      ensures privileges == AddToPrivileges(old(privileges), grant)
      ensures grant.MaskGrant? ==> forall bit ::
                permissions.View().Bit(bit) <==>
                if grant.kind == OrMask then old(permissions.View()).Bit(bit) || grant.mask.Bit(bit)
                else old(permissions.View()).Bit(bit) && grant.mask.Bit(bit)
      ensures !grant.MaskGrant? ==> permissions.View() == old(permissions.View())
      ensures !grant.PrivilegeGrant? ==> privileges == old(privileges)
      ensures grant.PrivilegeGrant? ==> forall name ::
                privileges.Has(name) <==>
                old(privileges).Has(name) || grant.privilege in {FullPrivilege, SinglePrivilege(name)}
    {
      match grant {
        case Super =>
        case PrivilegeGrant(privilege) => privileges := privileges.With(privilege);
        case MaskGrant(OrMask, mask) => permissions.Or(mask);
        case MaskGrant(AndMask, mask) => permissions.And(mask);
      }
    }

    method And(mask: Mask, other: Privileges)
      modifies this, permissions.child, permissions.particle
      ensures permissions.View() == old(permissions.View()).And(mask)
      ensures privileges == CommonPrivileges(old(privileges), other)
      ensures forall bit :: permissions.View().Bit(bit) <==> old(permissions.View()).Bit(bit) && mask.Bit(bit)
      ensures forall name :: privileges.Has(name) <==> old(privileges).Has(name) && other.Has(name)
    {
      permissions.And(mask);
      privileges := AndPrivileges(privileges, other);
    }
  }

  // ---------------------------------------------------------------- folding a list of grants

  /** The permissions after adding the grants in order. */
  function FoldMask(mask: Mask, grants: seq<GrantKind>): Mask
    decreases grants
  {
    if |grants| == 0 then mask else FoldMask(AddToMask(mask, grants[0]), grants[1..])
  }

  function FoldPrivileges(privileges: Privileges, grants: seq<GrantKind>): Privileges
    decreases grants
  {
    if |grants| == 0 then privileges else FoldPrivileges(AddToPrivileges(privileges, grants[0]), grants[1..])
  }

  /** What the last grant that decides the bit makes of it. */
  function LastForce(grants: seq<GrantKind>, bit: PermissionBit): Option<bool> {
    if |grants| == 0 then None
    else
      match LastForce(grants[1..], bit)
      case Some(value) => Some(value)
      case None =>
        match grants[0]
        case MaskGrant(OrMask, mask) => if mask.Bit(bit) then Some(true) else None
        case MaskGrant(AndMask, mask) => if mask.Bit(bit) then None else Some(false)
        case _ => None
  }

  /** Bit by bit: the last deciding grant wins, and without one the bit keeps its value. */
  lemma {:induction false} LastForceWins(mask: Mask, grants: seq<GrantKind>, bit: PermissionBit)
    ensures FoldMask(mask, grants).Bit(bit) ==
            match LastForce(grants, bit)
            case Some(value) => value
            case None => mask.Bit(bit)
    decreases grants
  {
    if |grants| > 0 {
      LastForceWins(AddToMask(mask, grants[0]), grants[1..], bit);
    }
  }

  /** An Or grant at `i` sets the bit, and no And grant behind it takes the bit away. */
  predicate SetsForGood(grants: seq<GrantKind>, i: int, bit: PermissionBit) {
    && 0 <= i < |grants| && grants[i].MaskGrant? && grants[i].kind == OrMask && grants[i].mask.Bit(bit)
    && KeptFrom(grants, i + 1, bit)
  }

  /** No And grant from `from` on takes the bit away. */
  predicate KeptFrom(grants: seq<GrantKind>, from: nat, bit: PermissionBit) {
    forall j | from <= j < |grants| :: grants[j].MaskGrant? && grants[j].kind == AndMask ==> grants[j].mask.Bit(bit)
  }

  /** The same for a whole fold: a bit is set for good by an Or grant, or was there and is never taken away. */
  lemma {:induction false} BitInFull(mask: Mask, grants: seq<GrantKind>, bit: PermissionBit)
    ensures FoldMask(mask, grants).Bit(bit) <==>
            (mask.Bit(bit) && KeptFrom(grants, 0, bit)) || exists i :: SetsForGood(grants, i, bit)
    decreases grants
  {
    if |grants| > 0 {
      var head, rest := grants[0], grants[1..];
      BitInFull(AddToMask(mask, head), rest, bit);
      forall from: nat
        ensures KeptFrom(grants, from + 1, bit) <==> KeptFrom(rest, from, bit)
      {
        assert forall j :: 0 < j < |grants| ==> grants[j] == rest[j - 1];
      }
      forall i | i >= 0
        ensures SetsForGood(grants, i + 1, bit) <==> SetsForGood(rest, i, bit)
      {
      }
      assert KeptFrom(grants, 0, bit) <==>
             KeptFrom(grants, 1, bit) && (head.MaskGrant? && head.kind == AndMask ==> head.mask.Bit(bit));
      if i :| SetsForGood(grants, i, bit) {
        assert i > 0 ==> SetsForGood(rest, i - 1, bit);
      }
      if i :| SetsForGood(rest, i, bit) {
        assert SetsForGood(grants, i + 1, bit);
      }
      assert SetsForGood(grants, 0, bit) <==>
             KeptFrom(grants, 1, bit) && head.MaskGrant? && head.kind == OrMask && head.mask.Bit(bit);
    }
  }

  /**
  The normal form: a fold keeps the bits of one mask and sets those of another,
  and both masks depend on the grants alone.
   */
  lemma MaskNormalForm(mask: Mask, grants: seq<GrantKind>)
    ensures FoldMask(mask, grants) == mask.And(FoldMask(FULL, grants)).Or(FoldMask(NONE, grants))
    ensures FoldMask(NONE, grants).Within(FoldMask(FULL, grants))
  {
    var keep, set' := FoldMask(FULL, grants), FoldMask(NONE, grants);
    var normal := mask.And(keep).Or(set');
    forall bit: PermissionBit
      ensures FoldMask(mask, grants).Bit(bit) == normal.Bit(bit)
      ensures set'.Bit(bit) ==> keep.Bit(bit)
    {
      LastForceWins(mask, grants, bit);
      LastForceWins(FULL, grants, bit);
      LastForceWins(NONE, grants, bit);
    }
    SameBitsSameMask(FoldMask(mask, grants), normal);
  }

  /** The two masks of the normal form are the only ones. */
  lemma NormalFormUnique(grants: seq<GrantKind>, keep: Mask, set': Mask)
    requires forall mask :: FoldMask(mask, grants) == mask.And(keep).Or(set')
    requires set'.Within(keep)
    ensures keep == FoldMask(FULL, grants) && set' == FoldMask(NONE, grants)
  {
    assert FoldMask(FULL, grants) == FULL.And(keep).Or(set');
    assert FoldMask(NONE, grants) == NONE.And(keep).Or(set');
    SameBitsSameMask(FULL.And(keep).Or(set'), keep);
    SameBitsSameMask(NONE.And(keep).Or(set'), set');
  }

  lemma FoldTwo(mask: Mask, first: GrantKind, second: GrantKind)
    ensures FoldMask(mask, [first, second]) == AddToMask(AddToMask(mask, first), second)
  {
    assert [first, second][1..] == [second];
    assert [second][1..] == [];
    assert FoldMask(AddToMask(mask, first), [second]) == FoldMask(AddToMask(AddToMask(mask, first), second), []);
  }

  lemma SwapOne(mask: Mask, or: Mask, and: Mask)
    requires or.Within(and)
    ensures mask.Or(or).And(and) == mask.And(and).Or(or)
  {
    forall bit: PermissionBit
      ensures mask.Or(or).And(and).Bit(bit) == mask.And(and).Or(or).Bit(bit)
    {
      assert or.Bit(bit) ==> and.Bit(bit);
    }
    SameBitsSameMask(mask.Or(or).And(and), mask.And(and).Or(or));
  }

  ghost predicate Commute(first: GrantKind, second: GrantKind) {
    forall mask :: FoldMask(mask, [first, second]) == FoldMask(mask, [second, first])
  }

  /** An Or and an And grant may be swapped exactly when the And keeps all that the Or sets. */
  lemma OrAndCommute(or: Mask, and: Mask)
    ensures Commute(MaskGrant(OrMask, or), MaskGrant(AndMask, and)) <==> or.Within(and)
  {
    var first, second := MaskGrant(OrMask, or), MaskGrant(AndMask, and);
    hide FoldMask;
    if or.Within(and) {
      forall mask: Mask
        ensures FoldMask(mask, [first, second]) == FoldMask(mask, [second, first])
      {
        FoldTwo(mask, first, second);
        FoldTwo(mask, second, first);
        SwapOne(mask, or, and);
      }
    } else {
      var bit :| or.Bit(bit) && !and.Bit(bit);
      FoldTwo(NONE, first, second);
      FoldTwo(NONE, second, first);
      assert NONE.And(and).Or(or).Bit(bit) && !NONE.Or(or).And(and).Bit(bit);
      assert FoldMask(NONE, [first, second]) != FoldMask(NONE, [second, first]);
    }
  }

  function GrantedNames(grants: seq<GrantKind>): set<string> {
    set i | 0 <= i < |grants| && grants[i].PrivilegeGrant? && grants[i].privilege.SinglePrivilege? ::
      grants[i].privilege.name
  }

  /** Privileges only grow: they become the union with everything granted. */
  lemma {:induction false} PrivilegesAreUnion(privileges: Privileges, grants: seq<GrantKind>)
    ensures FoldPrivileges(privileges, grants) ==
            if privileges.FullPrivileges? || PrivilegeGrant(FullPrivilege) in grants then FullPrivileges
            else Enumerated(privileges.privileges + GrantedNames(grants))
    decreases grants
  {
    if |grants| == 0 {
      if privileges.Enumerated? {
        assert privileges.privileges + GrantedNames(grants) == privileges.privileges;
      }
    } else {
      var head, rest := grants[0], grants[1..];
      PrivilegesAreUnion(AddToPrivileges(privileges, head), rest);
      assert PrivilegeGrant(FullPrivilege) in grants <==>
              head == PrivilegeGrant(FullPrivilege) || PrivilegeGrant(FullPrivilege) in rest;
      var headNames := if head.PrivilegeGrant? && head.privilege.SinglePrivilege? then {head.privilege.name} else {};
      forall name
        ensures name in GrantedNames(grants) <==> name in headNames || name in GrantedNames(rest)
      {
        if name in GrantedNames(rest) {
          var i :| 0 <= i < |rest| && rest[i].PrivilegeGrant? && rest[i].privilege == SinglePrivilege(name);
          assert grants[i + 1] == rest[i];
        }
        if name in GrantedNames(grants) {
          var i :| 0 <= i < |grants| && grants[i].PrivilegeGrant? && grants[i].privilege == SinglePrivilege(name);
          if i > 0 {
            assert rest[i - 1] == grants[i];
          }
        }
      }
      assert GrantedNames(grants) == headNames + GrantedNames(rest);
    }
  }

  /** The order of the grants never matters for privileges. */
  lemma PrivilegesIgnoreOrder(privileges: Privileges, a: seq<GrantKind>, b: seq<GrantKind>)
    requires multiset(a) == multiset(b)
    ensures FoldPrivileges(privileges, a) == FoldPrivileges(privileges, b)
  {
    PrivilegesAreUnion(privileges, a);
    PrivilegesAreUnion(privileges, b);
    SameMembersSameNames(a, b);
    SameMembersSameNames(b, a);
    assert PrivilegeGrant(FullPrivilege) in multiset(a) <==> PrivilegeGrant(FullPrivilege) in multiset(b);
  }

  lemma SameMembersSameNames(a: seq<GrantKind>, b: seq<GrantKind>)
    requires multiset(a) == multiset(b)
    ensures GrantedNames(a) <= GrantedNames(b)
  {
    forall name | name in GrantedNames(a)
      ensures name in GrantedNames(b)
    {
      var i :| 0 <= i < |a| && a[i].PrivilegeGrant? && a[i].privilege == SinglePrivilege(name);
      assert a[i] in multiset(b);
      var j :| 0 <= j < |b| && b[j] == a[i];
    }
  }

  // ---------------------------------------------------------------- the two components do not mix

  function Only(grants: seq<GrantKind>, masks: bool): seq<GrantKind> {
    if |grants| == 0 then []
    else
      var keep := if masks then grants[0].MaskGrant? else grants[0].PrivilegeGrant?;
      (if keep then [grants[0]] else []) + Only(grants[1..], masks)
  }

  lemma {:induction false} ComponentsAreIndependent(mask: Mask, privileges: Privileges, grants: seq<GrantKind>)
    ensures FoldMask(mask, grants) == FoldMask(mask, Only(grants, true))
    ensures FoldPrivileges(privileges, grants) == FoldPrivileges(privileges, Only(grants, false))
    decreases grants
  {
    if |grants| > 0 {
      var head, rest := grants[0], grants[1..];
      ComponentsAreIndependent(AddToMask(mask, head), AddToPrivileges(privileges, head), rest);
      assert ([head] + Only(rest, true))[1..] == Only(rest, true);
      assert ([head] + Only(rest, false))[1..] == Only(rest, false);
      assert [] + Only(rest, true) == Only(rest, true);
      assert [] + Only(rest, false) == Only(rest, false);
    }
  }
}
