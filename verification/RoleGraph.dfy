/** Role membership as PostgreSQL's pg_has_role(_, _, 'MEMBER') sees it, and the
    membership and table-privilege sets of the two posture queries. */
module RoleGraph {
  /** A role: its name, whether it is a superuser, and what it is a direct member of. */
  datatype Role = Role(name: string, superuser: bool, grantedTo: set<nat>)

  /** A relation of the public schema, by kind. */
  datatype Relation = Relation(name: string, kind: char)

  /** The catalog as one connected role sees it; held are its effective table
      privileges, however it came by them. */
  datatype Catalog = Catalog(roles: map<nat, Role>, relations: map<nat, Relation>, held: set<(nat, string)>)

  const API := "complianceforge_api"
  const SCHEDULER := "complianceforge_scheduler"
  const FORBIDDEN_TO_WORKER :=
    {"complianceforge_api", "complianceforge_evidence_chain_owner", "complianceforge_evidence_registry_owner"}
  const KINDS := {"SELECT", "INSERT", "UPDATE", "DELETE", "TRUNCATE", "REFERENCES", "TRIGGER"}
  const TABLE_KINDS := {'r', 'p', 'v', 'm', 'f'}

  predicate WellFormed(c: Catalog) {
    && (forall a, b | a in c.roles && b in c.roles && c.roles[a].name == c.roles[b].name :: a == b)
    && (forall a | a in c.roles :: c.roles[a].grantedTo <= c.roles.Keys)
    && (forall r, s | r in c.relations && s in c.relations && c.relations[r].name == c.relations[s].name :: r == s)
  }

  /** A chain of direct grants. */
  predicate IsChain(c: Catalog, chain: seq<nat>) {
    && chain != []
    && (forall k | 0 <= k < |chain| :: chain[k] in c.roles)
    && (forall k | 0 < k < |chain| :: chain[k] in c.roles[chain[k - 1]].grantedTo)
  }

  ghost predicate Reaches(c: Catalog, a: nat, b: nat) {
    exists chain :: IsChain(c, chain) && chain[0] == a && chain[|chain| - 1] == b
  }

  /** pg_has_role(a, b, 'MEMBER') for existing roles. */
  ghost predicate Member(c: Catalog, a: nat, b: nat)
    requires a in c.roles && b in c.roles
  {
    a == b || c.roles[a].superuser || Reaches(c, a, b)
  }

  lemma ReachesTransitive(c: Catalog, a: nat, b: nat, d: nat)
    requires Reaches(c, a, b) && Reaches(c, b, d)
    ensures Reaches(c, a, d)
  {
    var p :| IsChain(c, p) && p[0] == a && p[|p| - 1] == b;
    var q :| IsChain(c, q) && q[0] == b && q[|q| - 1] == d;
    var r := p + q[1..];
    assert IsChain(c, r) && r[0] == a && r[|r| - 1] == d;
  }

  // ------------------------------------------------------------- the queries

  /** The role lacks membership in the group. */
  ghost predicate MissingMembership(c: Catalog, self: nat, group: string)
    requires self in c.roles
  {
    !exists r | r in c.roles :: c.roles[r].name == group && Member(c, self, r)
  }

  /** Names of the roles other than the group and the role itself it is a member of. */
  ghost function UnexpectedMemberships(c: Catalog, self: nat, group: string): set<string>
    requires self in c.roles
  {
    set r | r in c.roles && c.roles[r].name != group && c.roles[r].name != c.roles[self].name && Member(c, self, r)
      :: c.roles[r].name
  }

  /** Those of the listed roles that exist and that the role is a member of. */
  ghost function ListedMemberships(c: Catalog, self: nat, listed: set<string>): set<string>
    requires self in c.roles
  {
    set r | r in c.roles && c.roles[r].name in listed && Member(c, self, r) :: c.roles[r].name
  }

  /** to_regclass. */
  predicate Resolves(c: Catalog, name: string, r: nat) {
    r in c.relations && c.relations[r].name == name
  }

  predicate Allowed(c: Catalog, manifest: set<(string, string)>, r: nat, privilege: string)
    requires r in c.relations
  {
    (c.relations[r].name, privilege) in manifest
  }

  /** Manifest entries whose relation does not exist or whose privilege is not held. */
  ghost function MissingPrivileges(c: Catalog, manifest: set<(string, string)>): set<(string, string)> {
    set m | m in manifest && !(exists r | r in c.relations :: Resolves(c, m.0, r) && (r, m.1) in c.held)
  }

  /** Privileges held on tables and views of the schema outside the manifest. */
  ghost function UnexpectedPrivileges(c: Catalog, manifest: set<(string, string)>): set<(string, string)> {
    set r, privilege | r in c.relations && privilege in KINDS
      && c.relations[r].kind in TABLE_KINDS && (r, privilege) in c.held && !Allowed(c, manifest, r, privilege)
      :: (c.relations[r].name, privilege)
  }

  /** What the role may do to tables and views, by name. */
  ghost function EffectivePrivileges(c: Catalog): set<(string, string)> {
    set r, privilege | r in c.relations && privilege in KINDS
      && c.relations[r].kind in TABLE_KINDS && (r, privilege) in c.held
      :: (c.relations[r].name, privilege)
  }

  /** The manifest's entries about tables and views and the privileges listed for
      them; the others name relations of another kind, or nothing. */
  ghost function OnTables(c: Catalog, manifest: set<(string, string)>): set<(string, string)> {
    set m | m in manifest && m.1 in KINDS
      && exists r | r in c.relations :: Resolves(c, m.0, r) && c.relations[r].kind in TABLE_KINDS
  }

  ghost predicate Holding(c: Catalog, name: string, privilege: string) {
    exists r | r in c.relations :: Resolves(c, name, r) && (r, privilege) in c.held
  }

  /** The role holds every entry of the manifest, and on tables and views nothing
      outside it. */
  ghost predicate ExactlyGranted(c: Catalog, manifest: set<(string, string)>) {
    && (forall m | m in manifest :: Holding(c, m.0, m.1))
    && EffectivePrivileges(c) == OnTables(c, manifest)
  }

  lemma MissingExactly(c: Catalog, manifest: set<(string, string)>)
    ensures MissingPrivileges(c, manifest) == {} <==> forall m | m in manifest :: Holding(c, m.0, m.1)
  {
    var missing := MissingPrivileges(c, manifest);
    assert forall m | m in manifest :: m in missing <==> !Holding(c, m.0, m.1);
    assert forall m | m in missing :: m in manifest;
  }

  lemma UnexpectedExactly(c: Catalog, manifest: set<(string, string)>)
    ensures UnexpectedPrivileges(c, manifest) == {} <==> EffectivePrivileges(c) <= OnTables(c, manifest)
  {
    var unexpected, held := UnexpectedPrivileges(c, manifest), EffectivePrivileges(c);
    forall r, p | r in c.relations && p in KINDS && c.relations[r].kind in TABLE_KINDS && (r, p) in c.held
      ensures Allowed(c, manifest, r, p) <==> (c.relations[r].name, p) in OnTables(c, manifest)
    {
      assert Resolves(c, c.relations[r].name, r);
    }
    if unexpected == {} {
      forall m | m in held ensures m in OnTables(c, manifest) {
        var r, p :| r in c.relations && p in KINDS && c.relations[r].kind in TABLE_KINDS && (r, p) in c.held
                    && m == (c.relations[r].name, p);
        assert Allowed(c, manifest, r, p) || m in unexpected;
      }
    } else {
      var m :| m in unexpected;
      var r, p :| r in c.relations && p in KINDS && c.relations[r].kind in TABLE_KINDS && (r, p) in c.held
                  && !Allowed(c, manifest, r, p) && m == (c.relations[r].name, p);
      assert m in held && m !in OnTables(c, manifest);
    }
  }

  /** Both difference sets are empty exactly when the role holds the manifest and, on
      tables and views, no more. */
  lemma PrivilegesAreExact(c: Catalog, manifest: set<(string, string)>)
    requires WellFormed(c)
    ensures MissingPrivileges(c, manifest) == {} && UnexpectedPrivileges(c, manifest) == {}
            <==> ExactlyGranted(c, manifest)
  {
    MissingExactly(c, manifest);
    UnexpectedExactly(c, manifest);
    if forall m | m in manifest :: Holding(c, m.0, m.1) {
      forall m | m in OnTables(c, manifest) ensures m in EffectivePrivileges(c) {
        var r :| r in c.relations && Resolves(c, m.0, r) && (r, m.1) in c.held;
        assert c.relations[r].kind in TABLE_KINDS;
      }
    }
  }

  /** For a manifest about tables and views alone this is equality. */
  lemma TablesAreExact(c: Catalog, manifest: set<(string, string)>)
    requires OnTables(c, manifest) == manifest
    ensures ExactlyGranted(c, manifest) <==> EffectivePrivileges(c) == manifest
  {
    if EffectivePrivileges(c) == manifest {
      forall m | m in manifest ensures Holding(c, m.0, m.1) {
        var r, p :| r in c.relations && p in KINDS && c.relations[r].kind in TABLE_KINDS && (r, p) in c.held
                    && m == (c.relations[r].name, p);
        assert Resolves(c, m.0, r);
      }
    }
  }

  // ------------------------------------------------------------ memberships

  /** The group's membership is present and no unexpected one is, exactly when the
      role is a member, by however many grants, of itself and the group alone. */
  lemma MembershipIsExact(c: Catalog, self: nat, group: string)
    requires WellFormed(c) && self in c.roles
    ensures !MissingMembership(c, self, group) && UnexpectedMemberships(c, self, group) == {}
            <==> (exists g | g in c.roles :: c.roles[g].name == group && Member(c, self, g) &&
                    forall r | r in c.roles :: Member(c, self, r) <==> r == self || r == g)
  {
    var unexpected := UnexpectedMemberships(c, self, group);
    if !MissingMembership(c, self, group) && unexpected == {} {
      var g :| g in c.roles && c.roles[g].name == group && Member(c, self, g);
      forall r | r in c.roles ensures Member(c, self, r) <==> r == self || r == g {
        var name := c.roles[r].name;
        assert name !in unexpected;
      }
    }
  }

  /** Then nothing is granted, directly or not, to the group either, except the role. */
  lemma GroupReachesNothingElse(c: Catalog, self: nat, group: nat, r: nat)
    requires WellFormed(c) && self in c.roles && group in c.roles
    requires !MissingMembership(c, self, c.roles[group].name)
    requires UnexpectedMemberships(c, self, c.roles[group].name) == {}
    requires Reaches(c, group, r)
    ensures r == self || r == group
  {
    MembershipIsExact(c, self, c.roles[group].name);
    assert Member(c, self, group);
    var chain :| IsChain(c, chain) && chain[0] == group && chain[|chain| - 1] == r;
    assert r in c.roles;
    if self != group && !c.roles[self].superuser {
      ReachesTransitive(c, self, group, r);
    }
    assert Member(c, self, r);
  }

  /** No role can be a member of the API group and of none of the roles forbidden to
      the worker: the two gates exclude each other, for superusers and for the group
      roles themselves too. */
  lemma GatesExclude(c: Catalog, self: nat)
    requires WellFormed(c) && self in c.roles
    requires !MissingMembership(c, self, API)
    ensures API in ListedMemberships(c, self, FORBIDDEN_TO_WORKER)
  {
  }
}
