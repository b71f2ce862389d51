/** Repair of leased roles: every role that extends one of the audiences' prefixes gives its objects
    to the stable owner role, loses its privileges and is dropped. */
module LeaseRepair {
  import opened Text
  import opened Sequences
  import opened Identifiers

  type ObjectId = nat

  datatype Grant = Grant(object: ObjectId, grantee: string)
  datatype Catalog = Catalog(roles: set<string>, owner: map<ObjectId, string>, grants: set<Grant>)

  datatype RepairError = OwnerMissing | DependentObjects

  // ---------- The three statements ----------

  function Reassign(c: Catalog, from: string, to: string): Catalog {
    c.(owner := map o | o in c.owner :: if c.owner[o] == from then to else c.owner[o])
  }

  function DropOwned(c: Catalog, role: string): Catalog {
    c.(owner := map o | o in c.owner && c.owner[o] != role :: c.owner[o],
       grants := set g | g in c.grants && g.grantee != role)
  }

  /** Refused while anything depends on the role; dropping a role that does not exist is no error. */
  function DropRole(c: Catalog, role: string): Result<Catalog, RepairError> {
    if role !in c.roles then Ok(c)
    else if (exists o :: o in c.owner && c.owner[o] == role) || (exists g :: g in c.grants && g.grantee == role) then
      Err(DependentObjects)
    else Ok(c.(roles := c.roles - {role}))
  }

  // ---------- What a repair means ----------

  function Prefixes(audiences: seq<string>): (s: set<string>) {
    set a | a in audiences && Sanitize(a).Some? :: Sanitize(a).value
  }

  predicate Matches(prefix: string, role: string) {
    Like(RolePattern(prefix), role)
  }

  function LeaseRoles(roles: set<string>, prefixes: set<string>, owner: string): set<string> {
    set r | r in roles && r != owner && exists p :: p in prefixes && Matches(p, r)
  }

  /** The catalog without the given roles: their objects are the owner's, their privileges are gone,
      and everything else is as it was. */
  function Without(c: Catalog, gone: set<string>, owner: string): Catalog {
    Catalog(c.roles - gone,
            map o | o in c.owner :: if c.owner[o] in gone then owner else c.owner[o],
            set g | g in c.grants && g.grantee !in gone)
  }

  /** The three statements on one role never fail and amount to removing that role. */
  lemma RepairOne(c: Catalog, role: string, owner: string)
    requires role in c.roles && role != owner
    ensures DropRole(DropOwned(Reassign(c, role, owner), role), role) == Ok(Without(c, {role}, owner))
  {
    var reassigned := Reassign(c, role, owner);
    assert forall o :: o in reassigned.owner ==> reassigned.owner[o] != role;
    var dropped := DropOwned(reassigned, role);
    assert dropped.owner == reassigned.owner == Without(c, {role}, owner).owner;
    assert dropped.grants == Without(c, {role}, owner).grants;
    assert DropRole(dropped, role) == Ok(dropped.(roles := c.roles - {role}));
  }

  /** Neither of the first two statements can be left out: without the first a role's objects are lost, and
      without the second a role with privileges cannot be dropped. */
  lemma EachStatementNeeded(c: Catalog, role: string, owner: string, o: ObjectId, g: Grant)
    requires role in c.roles && role != owner
    ensures o in c.owner && c.owner[o] == role ==>
              DropRole(c, role) == Err(DependentObjects) && o !in DropOwned(c, role).owner
    ensures g in c.grants && g.grantee == role ==> DropRole(Reassign(c, role, owner), role) == Err(DependentObjects)
  {
    assert Reassign(c, role, owner).grants == c.grants && Reassign(c, role, owner).roles == c.roles;
  }

  lemma WithoutNone(c: Catalog, owner: string)
    ensures Without(c, {}, owner) == c
  {
  }

  lemma NextRole(c: Catalog, roles: seq<string>, j: nat, owner: string)
    requires Distinct(roles) && Elements(roles) <= c.roles && owner !in roles && j < |roles|
    ensures var now := Without(c, Elements(roles[..j]), owner);
            && roles[j] in now.roles && roles[j] != owner
            && Without(now, {roles[j]}, owner) == Without(c, Elements(roles[..j + 1]), owner)
  {
    ElementsNext(roles, j);
    assert roles[j] in Elements(roles) && roles[j] !in Elements(roles[..j]);
    WithoutTwice(c, Elements(roles[..j]), {roles[j]}, owner);
  }

  lemma WithoutTwice(c: Catalog, a: set<string>, b: set<string>, owner: string)
    requires owner !in a && owner !in b
    ensures Without(Without(c, a, owner), b, owner) == Without(c, a + b, owner)
  {
  }

  /** What a repair keeps and what it changes, object by object and role by role. */
  lemma RepairConserves(c: Catalog, prefixes: set<string>, owner: string)
    requires owner in c.roles
    ensures var gone := LeaseRoles(c.roles, prefixes, owner);
            var after := Without(c, gone, owner);
            && after.owner.Keys == c.owner.Keys && owner in after.roles
            && (forall o :: o in c.owner ==> after.owner[o] == if c.owner[o] in gone then owner else c.owner[o])
            && (forall r :: r in after.roles <==> r in c.roles && r !in gone)
            && (forall g :: g in after.grants <==> g in c.grants && g.grantee !in gone)
            && LeaseRoles(after.roles, prefixes, owner) == {}
            && (WellOwned(c) ==> WellOwned(after))
  {
  }

  /** Every owner and every grantee is a role. */
  ghost predicate WellOwned(c: Catalog) {
    (forall o :: o in c.owner ==> c.owner[o] in c.roles) && (forall g :: g in c.grants ==> g.grantee in c.roles)
  }

  /** Which roles go: those that extend some audience's prefix. Order and repetition of the audiences
      do not matter, nor do audiences that sanitize alike. */
  lemma LeaseRolesMean(roles: set<string>, audiences: seq<string>, owner: string, r: string)
    ensures r in LeaseRoles(roles, Prefixes(audiences), owner)
        <==> r in roles && r != owner
             && exists a :: a in audiences && Sanitize(a).Some? && Extends(Sanitize(a).value, r)
  {
    forall a | a in audiences && Sanitize(a).Some?
      ensures Sanitize(a).value in Prefixes(audiences)
      ensures Matches(Sanitize(a).value, r) <==> Extends(Sanitize(a).value, r)
    {
      SanitizeProjects(a);
      RolePatternExact(Sanitize(a).value, r);
    }
  }

  /** Every repaired role starts with the prefix of some audience and an underscore, in every catalog, if
      and only if no audience contains an underscore. */
  lemma OnlyOwnRoles(audiences: seq<string>)
    ensures (forall roles, owner, r :: r in LeaseRoles(roles, Prefixes(audiences), owner) ==> Named(audiences, r))
        <==> forall a :: a in audiences ==> '_' !in a
  {
    if forall a :: a in audiences ==> '_' !in a {
      forall roles, owner, r | r in LeaseRoles(roles, Prefixes(audiences), owner) ensures Named(audiences, r) {
        LeaseRolesMean(roles, audiences, owner, r);
        var a :| a in audiences && Sanitize(a).Some? && Extends(Sanitize(a).value, r);
        SanitizeUnderscore(a);
        SanitizeProjects(a);
        LiteralPrefix(Sanitize(a).value, r);
      }
    } else {
      var a :| a in audiences && '_' in a;
      ForeignRole(audiences, a);
      var r := Disguised(Sanitize(a).value);
      assert r in LeaseRoles({r}, Prefixes(audiences), []);
    }
  }

  ghost predicate Named(audiences: seq<string>, r: string) {
    exists a :: a in audiences && Sanitize(a).Some? && Sanitize(a).value + "_" <= r
  }

  /** An audience with an underscore takes a role that is named after none of the audiences. */
  lemma ForeignRole(audiences: seq<string>, a: string)
    requires a in audiences && '_' in a
    ensures Sanitize(a).Some?
    ensures var r := Disguised(Sanitize(a).value); r in LeaseRoles({r}, Prefixes(audiences), []) && !Named(audiences, r)
  {
    SanitizeUnderscore(a);
    SanitizeProjects(a);
    var p := Sanitize(a).value;
    var r := Disguised(p);
    DisguisedExtends(p);
    RolePatternExact(p, r);
    assert p in Prefixes(audiences);
    if Named(audiences, r) {
      var b :| b in audiences && Sanitize(b).Some? && Sanitize(b).value + "_" <= r;
      SanitizeProjects(b);
      DisguisedForeign(p, Sanitize(b).value);
    }
  }

  /** The printed statements name exactly the role and the owner. */
  lemma StatementsName(role: string, owner: string)
    ensures LexIdentifier(Quote(role) + (" TO " + Quote(owner))) == Some((role, " TO " + Quote(owner)))
    ensures LexIdentifier(Quote(owner)) == Some((owner, [])) && LexIdentifier(Quote(role)) == Some((role, []))
  {
    QuoteLexes(role, " TO " + Quote(owner));
    QuoteLexes(owner, []);
    QuoteLexes(role, []);
    assert Quote(owner) + [] == Quote(owner) && Quote(role) + [] == Quote(role);
  }

  // ---------- The repair loop ----------

  class RoleCatalog {
    var catalog: Catalog

    constructor (initial: Catalog)
      ensures catalog == initial
    {
      catalog := initial;
    }

    /** The matching roles, each once, in some order. */
    method SelectLeaseRoles(prefix: string, owner: string) returns (names: seq<string>)
      ensures Distinct(names) && Elements(names) == LeaseRoles(catalog.roles, {prefix}, owner)
    {
      var left := set r | r in catalog.roles && r != owner && Matches(prefix, r);
      names := [];
      while left != {}
        invariant Distinct(names) && Elements(names) !! left
        invariant Elements(names) + left == LeaseRoles(catalog.roles, {prefix}, owner)
        decreases left
      {
        var r :| r in left;
        left := left - {r};
        assert r in Elements(names + [r]);
        assert Elements(names + [r]) == Elements(names) + {r};
        names := names + [r];
      }
    }

    /** Three statements, none of which can fail. */
    method RepairRole(role: string, owner: string)
      requires role in catalog.roles && role != owner
      modifies this
      ensures catalog == Without(old(catalog), {role}, owner)
    {
      RepairOne(catalog, role, owner);
      catalog := Reassign(catalog, role, owner);
      catalog := DropOwned(catalog, role);
      catalog := DropRole(catalog, role).value;
    }

    /** The inner loop. */
    method RepairRoles(roles: seq<string>, owner: string)
      requires Distinct(roles) && Elements(roles) <= catalog.roles && owner !in roles
      modifies this
      ensures catalog == Without(old(catalog), Elements(roles), owner)
    {
      ghost var before := catalog;
      WithoutNone(before, owner);
      for j := 0 to |roles|
        invariant catalog == Without(before, Elements(roles[..j]), owner)
      {
        NextRole(before, roles, j, owner);
        RepairRole(roles[j], owner);
      }
      assert roles[..|roles|] == roles;
    }

    /** Without audiences nothing happens, not even the check of the owner role. Otherwise every role
        that extends a prefix is repaired exactly once, and no statement fails. */
    method RepairLeaseOwnership(owner: string, audiences: seq<string>) returns (r: Result<seq<string>, RepairError>)
      modifies this
      ensures audiences == [] ==> r == Ok([]) && catalog == old(catalog)
      ensures audiences != [] && owner !in old(catalog).roles ==> r == Err(OwnerMissing) && catalog == old(catalog)
      ensures audiences == [] || owner in old(catalog).roles ==>
                r.Ok? && Distinct(r.value)
                && Elements(r.value) == LeaseRoles(old(catalog).roles, Prefixes(audiences), owner)
                && catalog == Without(old(catalog), Elements(r.value), owner)
      ensures r.Ok? && (forall a :: a in audiences ==> '_' !in a) ==> forall x :: x in r.value ==> Named(audiences, x)
      ensures catalog.owner.Keys == old(catalog).owner.Keys
      ensures r.Ok? ==> forall o :: o in catalog.owner ==>
                catalog.owner[o] == if old(catalog).owner[o] in r.value then owner else old(catalog).owner[o]
      ensures r.Ok? ==> forall x :: x in catalog.roles <==> x in old(catalog).roles && x !in r.value
      ensures r.Ok? ==> forall g :: g in catalog.grants <==> g in old(catalog).grants && g.grantee !in r.value
      ensures owner in old(catalog).roles ==>
                owner in catalog.roles && LeaseRoles(catalog.roles, Prefixes(audiences), owner) == {}
      ensures WellOwned(old(catalog)) ==> WellOwned(catalog)
    {
      ghost var before := catalog;
      WithoutNone(before, owner);
      if audiences == [] {
        return Ok([]);
      }
      if owner !in catalog.roles {
        return Err(OwnerMissing);
      }
      var prefixes: set<string> := {};
      var repaired: seq<string> := [];
      for i := 0 to |audiences|
        invariant prefixes == Prefixes(audiences[..i])
        invariant owner !in Elements(repaired) && Distinct(repaired)
        invariant Elements(repaired) == LeaseRoles(before.roles, prefixes, owner)
        invariant catalog == Without(before, Elements(repaired), owner)
      {
        var prefix := Sanitize(audiences[i]);
        PrefixesNext(audiences, i);
        if prefix.None? || prefix.value in prefixes {
          continue;
        }
        prefixes := prefixes + {prefix.value};
        var roles := SelectLeaseRoles(prefix.value, owner);
        NewRoles(before.roles, prefixes - {prefix.value}, prefix.value, owner);
        DistinctConcat(repaired, roles);
        RepairRoles(roles, owner);
        WithoutTwice(before, Elements(repaired), Elements(roles), owner);
        repaired := repaired + roles;
      }
      assert audiences[..|audiences|] == audiences;
      OnlyOwnRoles(audiences);
      RepairConserves(before, prefixes, owner);
      assert forall x :: x in repaired ==> x in LeaseRoles(before.roles, Prefixes(audiences), owner);
      return Ok(repaired);
    }
  }

  lemma PrefixesNext(audiences: seq<string>, i: nat)
    requires i < |audiences|
    ensures Prefixes(audiences[..i + 1])
         == Prefixes(audiences[..i]) + if Sanitize(audiences[i]).Some? then {Sanitize(audiences[i]).value} else {}
  {
    assert audiences[..i + 1] == audiences[..i] + [audiences[i]];
  }

  /** The roles still there that match a new prefix are those that no earlier prefix matched. */
  lemma NewRoles(roles: set<string>, prefixes: set<string>, p: string, owner: string)
    ensures var earlier := LeaseRoles(roles, prefixes, owner);
            var now := LeaseRoles(roles - earlier, {p}, owner);
            now !! earlier && LeaseRoles(roles, prefixes + {p}, owner) == earlier + now
  {
  }
}
