/**
 The permission evaluator: action patterns, the deduplicated permission set of a user, the cache in
 front of it, and its agreement with a plain evaluation over the expanded roles. Condition
 compilation and evaluation are a record of functions; cache entries may vanish at any time.
 */
module Authorization {
  import opened Common
  import opened RoleClosure

  /** The text form of a uuid: 36 characters. */
  type Uuid = s: string | |s| == 36 witness seq(36, _ => '0')

  type Attrs = map<string, string>

  datatype Permission = Permission(action: string, resource: string, conditions: string)

  /** Condition semantics: which blobs are unconditional, and whether a blob holds (errors count as false). */
  datatype Conditions = Conditions(unconditional: string -> bool,
                                   holds: (string, Uuid, Uuid, seq<string>, Attrs) -> bool)

  // ------------------------------------------------------------------
  // Patterns
  // ------------------------------------------------------------------

  predicate EndsWith(s: string, t: string) { |t| <= |s| && s[|s| - |t|..] == t }

  /** "*" matches all, "<prefix>.*" what begins with "<prefix>.", anything else only itself. */
  predicate MatchAction(pattern: string, action: string) {
    if pattern == "*" then true
    else if pattern == action then true
    else if EndsWith(pattern, ".*") then
      var prefix := pattern[..|pattern| - 2];
      if prefix == "" then true else prefix + "." <= action
    else false
  }

  predicate MatchResource(pattern: string, resource: string) {
    pattern == "" || resource == "" || pattern == resource
  }

  /** A prefix that ends in a dot does not reach the star at the end of a pattern. */
  lemma StemStopsBeforeStar(stem: string, q: string)
    requires stem <= q && stem != "" && stem[|stem| - 1] == '.' && q[|q| - 1] == '*'
    ensures stem <= q[..|q| - 1]
  {
    assert stem[|stem| - 1] == q[|stem| - 1];
  }

  lemma MatchTransitive(p: string, q: string, a: string)
    requires MatchAction(p, q) && MatchAction(q, a)
    ensures MatchAction(p, a)
  {
    if p != "*" && p != q && q != a && p[..|p| - 2] != "" {
      var stem := p[..|p| - 2] + ".";
      StemStopsBeforeStar(stem, q);
      assert stem <= q[..|q| - 1];
      assert q != "*";
      if q[..|q| - 2] != "" {
        assert q[..|q| - 2] + "." == q[..|q| - 1];
      }
    }
  }

  /** Each form of pattern and what it matches. */
  lemma PatternMeans(pattern: string, action: string)
    ensures MatchAction("*", action) && MatchAction(".*", action)
    ensures pattern != "" ==> (MatchAction(pattern + ".*", action) <==> pattern + "." <= action)
    ensures pattern != "*" && !(|pattern| >= 2 && pattern[|pattern| - 2] == '.' && pattern[|pattern| - 1] == '*') ==>
              (MatchAction(pattern, action) <==> pattern == action)
  {
    var p := pattern + ".*";
    assert EndsWith(p, ".*") && p[..|p| - 2] == pattern;
    assert p == (pattern + ".") + "*";
    if EndsWith(pattern, ".*") {
      assert pattern[|pattern| - 2..][0] == '.' && pattern[|pattern| - 2..][1] == '*';
    }
  }

  /** Matching a pattern against a pattern decides coverage: p matches q exactly when p matches all that q matches. */
  lemma PatternCoversIff(p: string, q: string)
    ensures MatchAction(p, q) <==> forall a :: MatchAction(q, a) ==> MatchAction(p, a)
  {
    if MatchAction(p, q) {
      forall a | MatchAction(q, a) ensures MatchAction(p, a) {
        MatchTransitive(p, q, a);
      }
    }
    assert MatchAction(q, q);
  }

  // ------------------------------------------------------------------
  // What a user may do, evaluated plainly
  // ------------------------------------------------------------------

  /** One role row: its parent and the legacy permission list stored with it. */
  datatype Role = Role(parent: Option<string>, legacy: seq<Permission>)

  /** One tenant's tables. `granular` holds the unrevoked permission rows of each role. */
  datatype Tables = Tables(
    userRoles: map<Uuid, seq<string>>,
    legacyRole: map<Uuid, string>,
    roles: map<string, Role>,
    granular: map<string, seq<Permission>>)

  type Database = map<Uuid, Tables>

  function TablesOf(db: Database, t: Uuid): Tables {
    if t in db then db[t] else Tables(map[], map[], map[], map[])
  }

  function ParentMap(d: Tables): Roles { map r | r in d.roles :: d.roles[r].parent }

  /** The multi-role table without blank names, else the legacy single role. */
  function HeldRoles(d: Tables, u: Uuid): seq<string> {
    var named := if u in d.userRoles then Select(d.userRoles[u], (r: string) => r != "") else [];
    if named != [] then named
    else if u in d.legacyRole && d.legacyRole[u] != "" then [d.legacyRole[u]]
    else []
  }

  /** The user has a named role in the multi-role table. */
  ghost predicate HasNamedRole(d: Tables, u: Uuid) {
    u in d.userRoles && exists i :: 0 <= i < |d.userRoles[u]| && d.userRoles[u][i] != ""
  }

  /** Named multi-roles decide alone; only without one does the legacy column count. */
  lemma HeldMeans(d: Tables, u: Uuid, role: string)
    ensures HasNamedRole(d, u) ==> (role in HeldRoles(d, u) <==> role in d.userRoles[u] && role != "")
    ensures !HasNamedRole(d, u) ==>
              HeldRoles(d, u) == if u in d.legacyRole && d.legacyRole[u] != "" then [d.legacyRole[u]] else []
  {
    if u in d.userRoles {
      var rows, named := d.userRoles[u], (r: string) => r != "";
      SelectMembers(rows, named, role);
      if HasNamedRole(d, u) {
        var i :| 0 <= i < |rows| && rows[i] != "";
        SelectMembers(rows, named, rows[i]);
      } else {
        SelectNone(rows, named);
      }
    }
  }

  /** `p` is one of the role's granular rows, or the role has none and `p` is in its legacy list. */
  ghost predicate RoleGrants(d: Tables, role: string, p: Permission) {
    || (role in d.granular && p in d.granular[role])
    || ((role !in d.granular || d.granular[role] == []) && role in d.roles && p in d.roles[role].legacy)
  }

  function Expanded(d: Tables, u: Uuid): set<string> { Expand(ParentMap(d), HeldRoles(d, u)) }

  /** `p` is granted to some expanded role of the user. */
  ghost predicate Grants(d: Tables, u: Uuid, p: Permission) {
    exists r :: r in Expanded(d, u) && RoleGrants(d, r, p)
  }

  predicate Covers(p: Permission, action: string, resource: string) {
    MatchAction(p.action, action) && MatchResource(p.resource, resource)
  }

  /** The reference decision without a record: an unconditional grant covers the request. */
  ghost predicate Allowed(c: Conditions, d: Tables, u: Uuid, action: string, resource: string) {
    exists p :: Grants(d, u, p) && Covers(p, action, resource) && c.unconditional(p.conditions)
  }

  /** The reference decision for a record: a covering grant whose condition holds. */
  ghost predicate AllowedRecord(c: Conditions, d: Tables, t: Uuid, u: Uuid, action: string, resource: string,
                                attrs: Attrs) {
    exists p :: Grants(d, u, p) && Covers(p, action, resource) && Passes(c, p, t, u, HeldRoles(d, u), attrs)
  }

  predicate Passes(c: Conditions, p: Permission, t: Uuid, u: Uuid, roles: seq<string>, attrs: Attrs) {
    c.unconditional(p.conditions) || c.holds(p.conditions, u, t, roles, attrs)
  }

  /** What is allowed without a record is allowed for every record. */
  lemma AllowedImpliesAllowedRecord(c: Conditions, d: Tables, t: Uuid, u: Uuid, action: string, resource: string,
                                    attrs: Attrs)
    requires Allowed(c, d, u, action, resource)
    ensures AllowedRecord(c, d, t, u, action, resource, attrs)
  {
  }

  /** Every stored row of an expanded role that covers the request unconditionally allows it. */
  lemma RowAllows(c: Conditions, d: Tables, t: Uuid, u: Uuid, action: string, resource: string, attrs: Attrs,
                  r: string, p: Permission)
    requires r in Expand(map x | x in d.roles :: d.roles[x].parent, HeldRoles(d, u))
    requires if r in d.granular && d.granular[r] != [] then p in d.granular[r]
             else r in d.roles && p in d.roles[r].legacy
    requires MatchAction(p.action, action) && (p.resource == "" || resource == "" || p.resource == resource)
    ensures c.unconditional(p.conditions) ==> Allowed(c, d, u, action, resource)
    ensures c.unconditional(p.conditions) || c.holds(p.conditions, u, t, HeldRoles(d, u), attrs) ==>
              AllowedRecord(c, d, t, u, action, resource, attrs)
  {
    assert ParentMap(d) == map x | x in d.roles :: d.roles[x].parent;
    assert RoleGrants(d, r, p) && Grants(d, u, p);
  }

  /** And every allowed request has such a row behind it. */
  lemma RowBehindAllowed(c: Conditions, d: Tables, u: Uuid, action: string, resource: string)
    returns (r: string, p: Permission)
    requires Allowed(c, d, u, action, resource)
    ensures r in Expand(map x | x in d.roles :: d.roles[x].parent, HeldRoles(d, u))
    ensures if r in d.granular && d.granular[r] != [] then p in d.granular[r]
            else r in d.roles && p in d.roles[r].legacy
    ensures MatchAction(p.action, action) && (p.resource == "" || resource == "" || p.resource == resource)
    ensures c.unconditional(p.conditions)
  {
    assert ParentMap(d) == map x | x in d.roles :: d.roles[x].parent;
    p :| Grants(d, u, p) && Covers(p, action, resource) && c.unconditional(p.conditions);
    r :| r in Expanded(d, u) && RoleGrants(d, r, p);
  }

  /** For a record the row may also carry a condition that holds for this user, tenant and record. */
  lemma RowBehindAllowedRecord(c: Conditions, d: Tables, t: Uuid, u: Uuid, action: string, resource: string,
                               attrs: Attrs)
    returns (r: string, p: Permission)
    requires AllowedRecord(c, d, t, u, action, resource, attrs)
    ensures r in Expand(map x | x in d.roles :: d.roles[x].parent, HeldRoles(d, u))
    ensures if r in d.granular && d.granular[r] != [] then p in d.granular[r]
            else r in d.roles && p in d.roles[r].legacy
    ensures MatchAction(p.action, action) && (p.resource == "" || resource == "" || p.resource == resource)
    ensures c.unconditional(p.conditions) || c.holds(p.conditions, u, t, HeldRoles(d, u), attrs)
  {
    assert ParentMap(d) == map x | x in d.roles :: d.roles[x].parent;
    p :| Grants(d, u, p) && Covers(p, action, resource) && Passes(c, p, t, u, HeldRoles(d, u), attrs);
    r :| r in Expanded(d, u) && RoleGrants(d, r, p);
  }

  /** A role with granular rows grants exactly those; one with none grants exactly its legacy list. */
  lemma GranularRowsDecide(d: Tables, role: string, p: Permission)
    ensures role in d.granular && d.granular[role] != [] ==> (RoleGrants(d, role, p) <==> p in d.granular[role])
    ensures role !in d.granular || d.granular[role] == [] ==>
              (RoleGrants(d, role, p) <==> role in d.roles && p in d.roles[role].legacy)
  {
  }

  /** Whatever the legacy list of a role with granular rows says, no decision about any user depends on it. */
  lemma LegacyIsShadowed(c: Conditions, d: Tables, role: string, legacy: seq<Permission>, t: Uuid, u: Uuid,
                         action: string, resource: string, attrs: Attrs)
    requires role in d.roles && role in d.granular && d.granular[role] != []
    ensures var d' := d.(roles := d.roles[role := d.roles[role].(legacy := legacy)]);
            && (Allowed(c, d', u, action, resource) <==> Allowed(c, d, u, action, resource))
            && (AllowedRecord(c, d', t, u, action, resource, attrs) <==>
                  AllowedRecord(c, d, t, u, action, resource, attrs))
  {
    var d' := d.(roles := d.roles[role := d.roles[role].(legacy := legacy)]);
    assert ParentMap(d') == ParentMap(d);
    assert HeldRoles(d', u) == HeldRoles(d, u);
    forall p ensures Grants(d', u, p) <==> Grants(d, u, p) {
      assert forall r :: RoleGrants(d', r, p) <==> RoleGrants(d, r, p);
    }
  }

  // ------------------------------------------------------------------
  // Keys
  // ------------------------------------------------------------------

  const NUL: char := '\0'

  function PermKey(p: Permission): string { p.action + [NUL] + p.resource + [NUL] + p.conditions }

  /** Neither action nor resource contains NUL, as PostgreSQL text guarantees. */
  predicate NulFree(p: Permission) { NUL !in p.action && NUL !in p.resource }

  lemma FirstNul(a1: string, b1: string, a2: string, b2: string)
    requires NUL !in a1 && NUL !in a2 && a1 + [NUL] + b1 == a2 + [NUL] + b2
    ensures a1 == a2 && b1 == b2
  {
    var k := a1 + [NUL] + b1;
    assert k[|a1|] == NUL && k[|a2|] == NUL;
    assert forall i :: 0 <= i < |a1| ==> k[i] == a1[i] && a1[i] in a1;
    assert forall i :: 0 <= i < |a2| ==> k[i] == a2[i] && a2[i] in a2;
    assert a1 == k[..|a1|] && a2 == k[..|a2|];
    assert b1 == k[|a1| + 1..] && b2 == k[|a2| + 1..];
  }

  lemma PermKeyInjective(p: Permission, q: Permission)
    requires NulFree(p) && NulFree(q) && PermKey(p) == PermKey(q)
    ensures p == q
  {
    assert PermKey(p) == p.action + [NUL] + (p.resource + [NUL] + p.conditions);
    assert PermKey(q) == q.action + [NUL] + (q.resource + [NUL] + q.conditions);
    FirstNul(p.action, p.resource + [NUL] + p.conditions, q.action, q.resource + [NUL] + q.conditions);
    FirstNul(p.resource, p.conditions, q.resource, q.conditions);
  }

  function TenantPrefix(t: Uuid): string { "authz:" + t + ":" }

  function CacheKey(t: Uuid, u: Uuid): string { TenantPrefix(t) + u }

  /** Tenant invalidation hits exactly that tenant's keys. */
  lemma PrefixSelectsTenant(t: Uuid, u: Uuid, t': Uuid)
    ensures TenantPrefix(t') <= CacheKey(t, u) <==> t == t'
  {
    if TenantPrefix(t') <= CacheKey(t, u) {
      assert t' == TenantPrefix(t')[6..42] == CacheKey(t, u)[6..42] == t;
    }
  }

  lemma CacheKeyInjective(t: Uuid, u: Uuid, t': Uuid, u': Uuid)
    requires CacheKey(t, u) == CacheKey(t', u')
    ensures t == t' && u == u'
  {
    PrefixSelectsTenant(t, u, t');
    assert u == CacheKey(t, u)[43..] && u' == CacheKey(t', u')[43..];
  }

  // ------------------------------------------------------------------
  // The evaluator
  // ------------------------------------------------------------------

  datatype PermissionSet = PermissionSet(perms: seq<Permission>, roles: seq<string>)

  /** A loaded set holds exactly the user's grants. */
  ghost predicate IsLoadOf(ps: PermissionSet, d: Tables, u: Uuid) {
    && ps.roles == HeldRoles(d, u)
    && (forall p :: p in ps.perms <==> Grants(d, u, p))
  }

  ghost predicate AllNulFree(d: Tables) {
    forall r, p :: RoleGrants(d, r, p) ==> NulFree(p)
  }

  ghost predicate Unique(perms: seq<Permission>) {
    forall i, j :: 0 <= i < j < |perms| ==> perms[i] != perms[j]
  }

  /** Appends the permissions whose key was not seen yet. */
  method AddRole(rolePerms: seq<Permission>, perms0: seq<Permission>, seen0: set<string>)
    returns (perms: seq<Permission>, seen: set<string>)
    requires forall p :: p in perms0 || p in rolePerms ==> NulFree(p)
    requires Unique(perms0) && (forall p :: p in perms0 ==> PermKey(p) in seen0)
    requires forall k :: k in seen0 ==> exists p :: p in perms0 && PermKey(p) == k
    ensures Unique(perms) && (forall p :: p in perms ==> PermKey(p) in seen)
    ensures forall k :: k in seen ==> exists p :: p in perms && PermKey(p) == k
    ensures forall p :: p in perms <==> p in perms0 || p in rolePerms
  {
    perms, seen := perms0, seen0;
    var i := 0;
    while i < |rolePerms|
      invariant 0 <= i <= |rolePerms|
      invariant Unique(perms) && (forall p :: p in perms ==> PermKey(p) in seen)
      invariant forall k :: k in seen ==> exists p :: p in perms && PermKey(p) == k
      invariant forall p :: p in perms <==> p in perms0 || p in rolePerms[..i]
    {
      var p := rolePerms[i];
      var k := PermKey(p);
      assert forall q :: q in rolePerms[..i + 1] <==> q in rolePerms[..i] || q == p;
      if k in seen {
        var q :| q in perms && PermKey(q) == k;
        assert q in rolePerms || q in perms0;
        PermKeyInjective(p, q);
      } else {
        seen := seen + {k};
        assert p !in perms;
        ghost var before := perms;
        perms := perms + [p];
        forall x | x in seen ensures exists q :: q in perms && PermKey(q) == x {
          if x != k {
            var q :| q in before && PermKey(q) == x;
            assert q in perms;
          } else {
            assert p in perms;
          }
        }
      }
      i := i + 1;
    }
    assert rolePerms[..i] == rolePerms;
  }

  /** The roles of the multi-role table without blank names, else the legacy single role. */
  method LoadUserRoles(d: Tables, u: Uuid) returns (roles: seq<string>)
    ensures roles == HeldRoles(d, u)
  {
    roles := [];
    var rows := if u in d.userRoles then d.userRoles[u] else [];
    var i := 0;
    while i < |rows|
      invariant 0 <= i <= |rows|
      invariant roles == Select(rows[..i], (r: string) => r != "")
    {
      SelectAppend(rows[..i], rows[i], (r: string) => r != "");
      assert rows[..i + 1] == rows[..i] + [rows[i]];
      if rows[i] != "" {
        roles := roles + [rows[i]];
      }
      i := i + 1;
    }
    assert rows[..i] == rows;
    if |roles| > 0 {
      return;
    }
    if u in d.legacyRole && d.legacyRole[u] != "" {
      return [d.legacyRole[u]];
    }
  }

  /** The granular rows of a role when it has any, else its legacy list. */
  method LoadRolePermissions(d: Tables, role: string) returns (perms: seq<Permission>)
    ensures perms == if role in d.granular && d.granular[role] != [] then d.granular[role]
                     else if role in d.roles then d.roles[role].legacy
                     else []
    ensures forall p :: p in perms <==> RoleGrants(d, role, p)
  {
    perms := if role in d.granular then d.granular[role] else [];
    if |perms| > 0 {
      return;
    }
    if role in d.roles {
      perms := d.roles[role].legacy;
    }
  }

  class Evaluator {
    var db: Database
    var cache: map<string, PermissionSet>
    const conditions: Conditions

    constructor (conditions: Conditions)
      ensures this.conditions == conditions && db == map[] && cache == map[] && Fresh()
    {
      this.conditions := conditions;
      db, cache := map[], map[];
    }

    /** Every cached set is what a query would load now. */
    ghost predicate Fresh() reads this {
      && (forall t :: t in db ==> AllNulFree(db[t]))
      && (forall t: Uuid, u: Uuid :: CacheKey(t, u) in cache ==> IsLoadOf(cache[CacheKey(t, u)], TablesOf(db, t), u))
    }

    method QueryPermissionSet(t: Uuid, u: Uuid) returns (ps: PermissionSet)
      requires Fresh()
      ensures IsLoadOf(ps, TablesOf(db, t), u)
      ensures Unique(ps.perms)
    {
      var d := TablesOf(db, t);
      var roles := LoadUserRoles(d, u);
      var expanded := ExpandRoles(ParentMap(d), roles);
      var perms, seen: set<string> := [], {};
      var left := expanded;
      while left != {}
        invariant left <= expanded
        invariant Unique(perms) && (forall p :: p in perms ==> PermKey(p) in seen)
        invariant forall k :: k in seen ==> exists p :: p in perms && PermKey(p) == k
        invariant forall p :: p in perms <==> exists r :: r in expanded - left && RoleGrants(d, r, p)
        decreases |left|
      {
        var role :| role in left;
        ghost var before := perms;
        var rolePerms := LoadRolePermissions(d, role);
        perms, seen := AddRole(rolePerms, perms, seen);
        ghost var left' := left - {role};
        forall p ensures p in perms <==> exists r :: r in expanded - left' && RoleGrants(d, r, p) {
          assert expanded - left' == (expanded - left) + {role};
        }
        left := left - {role};
      }
      assert expanded - left == expanded;
      return PermissionSet(perms, roles);
    }

    method LoadPermissionSet(t: Uuid, u: Uuid) returns (ps: PermissionSet)
      requires Fresh()
      modifies this`cache
      ensures Fresh() && IsLoadOf(ps, TablesOf(db, t), u)
      ensures cache == old(cache)[CacheKey(t, u) := ps]
    {
      var key := CacheKey(t, u);
      if key in cache {
        return cache[key];
      }
      ps := QueryPermissionSet(t, u);
      cache := cache[key := ps];
      forall t': Uuid, u': Uuid | CacheKey(t', u') in cache
        ensures IsLoadOf(cache[CacheKey(t', u')], TablesOf(db, t'), u')
      {
        if CacheKey(t', u') == key {
          CacheKeyInjective(t', u', t, u);
        }
      }
    }

    /** Decides as the plain evaluation over the current tables does. */
    method Authorize(t: Uuid, u: Uuid, action: string, resource: string) returns (ok: bool)
      requires Fresh()
      modifies this`cache
      ensures Fresh()
      ensures ok <==> Allowed(conditions, TablesOf(db, t), u, action, resource)
    {
      var loaded := LoadPermissionSet(t, u);
      var i := 0;
      while i < |loaded.perms|
        invariant 0 <= i <= |loaded.perms|
        invariant forall j :: 0 <= j < i ==> !(Covers(loaded.perms[j], action, resource)
                                               && conditions.unconditional(loaded.perms[j].conditions))
      {
        var p := loaded.perms[i];
        if MatchAction(p.action, action) && MatchResource(p.resource, resource)
            && conditions.unconditional(p.conditions) {
          assert p in loaded.perms;
          return true;
        }
        i := i + 1;
      }
      return false;
    }

    method AuthorizeRecord(t: Uuid, u: Uuid, action: string, resource: string, attrs: Attrs) returns (ok: bool)
      requires Fresh()
      modifies this`cache
      ensures Fresh()
      ensures ok <==> AllowedRecord(conditions, TablesOf(db, t), t, u, action, resource, attrs)
    {
      var loaded := LoadPermissionSet(t, u);
      var i := 0;
      while i < |loaded.perms|
        invariant 0 <= i <= |loaded.perms|
        invariant forall j :: 0 <= j < i ==>
                    !(Covers(loaded.perms[j], action, resource)
                      && Passes(conditions, loaded.perms[j], t, u, loaded.roles, attrs))
      {
        var p := loaded.perms[i];
        if MatchAction(p.action, action) && MatchResource(p.resource, resource)
            && Passes(conditions, p, t, u, loaded.roles, attrs) {
          assert p in loaded.perms;
          return true;
        }
        i := i + 1;
      }
      return false;
    }

    /** DeletePrefix: afterwards exactly the entries of other tenants' users are cached, unchanged. */
    method InvalidateTenant(t: Uuid)
      modifies this`cache
      ensures forall t': Uuid, u': Uuid :: CacheKey(t', u') in cache <==> CacheKey(t', u') in old(cache) && t' != t
      ensures forall k :: k in cache ==> k in old(cache) && cache[k] == old(cache)[k]
    {
      ghost var before := cache;
      cache := map k | k in cache && !(TenantPrefix(t) <= k) :: cache[k];
      forall t': Uuid, u': Uuid ensures CacheKey(t', u') in cache <==> CacheKey(t', u') in before && t' != t {
        PrefixSelectsTenant(t', u', t);
      }
    }

    /** Afterwards every other user's entry is cached as before, and this user's is not. */
    method InvalidateUser(t: Uuid, u: Uuid)
      modifies this`cache
      ensures forall t': Uuid, u': Uuid ::
                CacheKey(t', u') in cache <==> CacheKey(t', u') in old(cache) && (t', u') != (t, u)
      ensures forall k :: k in cache ==> k in old(cache) && cache[k] == old(cache)[k]
    {
      ghost var before := cache;
      cache := cache - {CacheKey(t, u)};
      forall t': Uuid, u': Uuid
        ensures CacheKey(t', u') in cache <==> CacheKey(t', u') in before && (t', u') != (t, u)
      {
        if CacheKey(t', u') == CacheKey(t, u) {
          CacheKeyInjective(t', u', t, u);
        }
      }
    }

    /** Capacity or expiry drops any entries. */
    method Evict(keys: set<string>)
      requires Fresh()
      modifies this`cache
      ensures Fresh() && cache == old(cache) - keys
    {
      cache := cache - keys;
    }

    /** A role or permission write followed by InvalidateTenant: later decisions use the new tables. */
    method WriteTables(t: Uuid, d: Tables)
      requires Fresh() && AllNulFree(d)
      modifies this
      ensures Fresh() && db == old(db)[t := d]
    {
      db := db[t := d];
      InvalidateTenant(t);
    }

    /** Assigning a user's roles followed by InvalidateUser. */
    method WriteUserRoles(t: Uuid, u: Uuid, roles: seq<string>)
      requires Fresh()
      modifies this
      ensures Fresh()
      ensures db == old(db)[t := TablesOf(old(db), t).(userRoles := TablesOf(old(db), t).userRoles[u := roles])]
    {
      var d := TablesOf(db, t);
      var d' := d.(userRoles := d.userRoles[u := roles]);
      assert AllNulFree(d') by {
        assert AllNulFree(d);
        assert forall r, p :: RoleGrants(d', r, p) <==> RoleGrants(d, r, p);
      }
      db := db[t := d'];
      InvalidateUser(t, u);
      forall t': Uuid, u': Uuid | CacheKey(t', u') in cache
        ensures IsLoadOf(cache[CacheKey(t', u')], TablesOf(db, t'), u')
      {
        if t' == t {
          OtherUsersUnaffected(d, d', u, u', cache[CacheKey(t', u')]);
        }
      }
    }
  }

  lemma OtherUsersUnaffected(d: Tables, d': Tables, u: Uuid, v: Uuid, loaded: PermissionSet)
    requires u != v && IsLoadOf(loaded, d, v)
    requires u in d'.userRoles && d' == d.(userRoles := d.userRoles[u := d'.userRoles[u]])
    ensures IsLoadOf(loaded, d', v)
  {
    assert HeldRoles(d', v) == HeldRoles(d, v);
    assert ParentMap(d') == ParentMap(d);
    assert forall r, p :: RoleGrants(d', r, p) <==> RoleGrants(d, r, p);
    assert forall p :: Grants(d', v, p) <==> Grants(d, v, p);
  }
}
