/**
 The RBAC engine: `Require` (server/internal/auth/authz.go), the principal shortcuts
 (server/internal/auth/principal.go), token minting (server/internal/api/tokens_handlers.go),
 the device-list filter (server/internal/api/devices_handlers.go) and the memoised target check
 (server/internal/api/dispatch.go).
 */
module Authorization {
  import opened Wrappers

  type Id = nat

  /** auth.All(), and any other string a request may name. */
  datatype Permission =
    | TenantManage | UsersRead | UsersManage | OrgRead | OrgManage
    | DevicesRead | DevicesManage | DevicesEnroll
    | ScriptsRead | ScriptsManage | ScriptsExecute
    | AppsDeploy | AppsRead | AppsManage | AgentUpdate
    | PoliciesRead | PoliciesManage | AlertsRead | AlertsManage
    | ShellConnect | AuditRead | TokensManage
    | NotAPermission(name: string)

  /** The zero UUID, which a tenant-wide scope carries. */
  const NO_ID: Id := 0

  datatype ScopeType = Tenant | Customer | Site | Unknown(name: string)

  datatype Scope = Scope(kind: ScopeType, id: Id)

  datatype Grant = Grant(scope: Scope, permissions: seq<Permission>)

  datatype Principal = Principal(grants: seq<Grant>)

  /** Answers containment, or nothing when the query failed. */
  type Resolver = (Scope, Scope) -> Option<bool>

  /** The rows of the sites table: which customer each site belongs to. */
  type OrgTree = map<Id, Id>

  const TENANT_SCOPE := Scope(Tenant, NO_ID)

  /** txResolver.Contains over the sites table: only a customer contains, and only sites. */
  function TreeContains(tree: OrgTree, outer: Scope, inner: Scope): bool {
    outer.kind == Customer && inner.kind == Site && inner.id in tree && tree[inner.id] == outer.id
  }

  /** The resolver when every query succeeds. */
  function Live(tree: OrgTree): Resolver {
    (outer, inner) => Some(TreeContains(tree, outer, inner))
  }

  /** A resolver whose queries may fail but never answer wrongly. */
  ghost predicate Truthful(res: Resolver, tree: OrgTree) {
    forall outer, inner :: res(outer, inner).Some? ==> res(outer, inner).value == TreeContains(tree, outer, inner)
  }

  /** One turn of Require's loop: a decision, or go on to the next grant. */
  function Decide(res: Resolver, g: Grant, perm: Permission, target: Scope): Option<bool> {
    if perm !in g.permissions then None
    else if g.scope.kind == Tenant then Some(true)
    else if g.scope == target then Some(true)
    else match res(g.scope, target)
         case None => Some(false)
         case Some(contains) => if contains then Some(true) else None
  }

  function RequireFrom(res: Resolver, grants: seq<Grant>, perm: Permission, target: Scope): bool {
    if grants == [] then false
    else
      match Decide(res, grants[0], perm, target)
      case Some(verdict) => verdict
      case None => RequireFrom(res, grants[1..], perm, target)
  }

  /** Require: true for nil, false for ErrForbidden; no principal is denied. */
  function Require(res: Resolver, who: Option<Principal>, perm: Permission, target: Scope): bool {
    who.Some? && RequireFrom(res, who.value.grants, perm, target)
  }

  /** What a grant means, independently of the search and the resolver: its scope covers the target. */
  predicate Covers(tree: OrgTree, g: Grant, perm: Permission, target: Scope) {
    && perm in g.permissions
    && (|| g.scope.kind == Tenant
        || g.scope == target
        || (target.kind == Site && target.id in tree && g.scope == Scope(Customer, tree[target.id])))
  }

  predicate Allowed(tree: OrgTree, p: Principal, perm: Permission, target: Scope) {
    exists i :: 0 <= i < |p.grants| && Covers(tree, p.grants[i], perm, target)
  }

  /** With a resolver that does not fail, Require is "some grant covers the target". */
  lemma {:induction false} RequireMeansCovered(tree: OrgTree, p: Principal, perm: Permission, target: Scope)
    ensures Require(Live(tree), Some(p), perm, target) <==> Allowed(tree, p, perm, target)
    decreases |p.grants|
  {
    if p.grants != [] {
      var rest := Principal(p.grants[1..]);
      RequireMeansCovered(tree, rest, perm, target);
      assert Decide(Live(tree), p.grants[0], perm, target) ==
             if Covers(tree, p.grants[0], perm, target) then Some(true) else None;
      if Covers(tree, p.grants[0], perm, target) {
        assert Allowed(tree, p, perm, target);
      } else {
        if i :| 0 <= i < |rest.grants| && Covers(tree, rest.grants[i], perm, target) {
          assert Covers(tree, p.grants[i + 1], perm, target);
        }
        if i :| 0 <= i < |p.grants| && Covers(tree, p.grants[i], perm, target) {
          assert Covers(tree, rest.grants[i - 1], perm, target);
        }
      }
    }
  }

  /**
   Who may do what, on the sites table itself: the permission is held tenant-wide, at exactly the
   target, or, for a site, at the customer the site belongs to.  Nothing else is ever allowed.
   */
  lemma RequireSpelledOut(tree: OrgTree, p: Principal, perm: Permission, target: Scope)
    ensures Require(Live(tree), Some(p), perm, target) <==>
              exists i :: 0 <= i < |p.grants| && perm in p.grants[i].permissions
                && (|| p.grants[i].scope.kind == Tenant
                    || p.grants[i].scope == target
                    || (target.kind == Site && target.id in tree && p.grants[i].scope == Scope(Customer, tree[target.id])))
  {
    RequireMeansCovered(tree, p, perm, target);
    if i :| 0 <= i < |p.grants| && perm in p.grants[i].permissions
            && (|| p.grants[i].scope.kind == Tenant
                || p.grants[i].scope == target
                || (target.kind == Site && target.id in tree && p.grants[i].scope == Scope(Customer, tree[target.id])))
    {
      assert Covers(tree, p.grants[i], perm, target);
    }
  }

  /** Grants on sites reach exactly those sites: not the customer above them, nor its other sites. */
  lemma SiteGrantsReachTheirSites(tree: OrgTree, p: Principal, perm: Permission, target: Scope)
    requires forall i :: 0 <= i < |p.grants| ==> p.grants[i].scope.kind == Site
    ensures Require(Live(tree), Some(p), perm, target) <==>
              exists i :: 0 <= i < |p.grants| && perm in p.grants[i].permissions && p.grants[i].scope == target
  {
    RequireSpelledOut(tree, p, perm, target);
  }

  /** Grant `i` decides for the request and every earlier grant leaves the question open. */
  ghost predicate DecidesAt(res: Resolver, grants: seq<Grant>, perm: Permission, target: Scope, i: int) {
    && 0 <= i < |grants| && Decide(res, grants[i], perm, target) == Some(true)
    && forall j :: 0 <= j < i ==> Decide(res, grants[j], perm, target) == None
  }

  lemma DecidesLater(res: Resolver, grants: seq<Grant>, perm: Permission, target: Scope, i: int)
    requires grants != [] && Decide(res, grants[0], perm, target) == None
    ensures DecidesAt(res, grants, perm, target, i + 1) <==> DecidesAt(res, grants[1..], perm, target, i)
  {
  }

  /**
   With failing queries the outcome depends on grant order, and exactly so: Require succeeds
   iff some grant decides for it and every earlier grant leaves the question open.  A grant
   whose query fails therefore denies even what a later grant would allow.
   */
  lemma {:induction false} RequireIsFirstDecision(res: Resolver, grants: seq<Grant>, perm: Permission, target: Scope)
    ensures Require(res, Some(Principal(grants)), perm, target) <==> exists i :: DecidesAt(res, grants, perm, target, i)
  {
    if grants != [] {
      if Decide(res, grants[0], perm, target) == None {
        RequireIsFirstDecision(res, grants[1..], perm, target);
        if i :| DecidesAt(res, grants[1..], perm, target, i) {
          DecidesLater(res, grants, perm, target, i);
        }
        if i :| DecidesAt(res, grants, perm, target, i) {
          DecidesLater(res, grants, perm, target, i - 1);
        }
      } else {
        assert forall i :: i > 0 ==> !DecidesAt(res, grants, perm, target, i);
        assert Decide(res, grants[0], perm, target) == Some(true) ==> DecidesAt(res, grants, perm, target, 0);
      }
    }
  }

  /** Failing closed: a truthful resolver that sometimes fails never allows more. */
  lemma {:induction false} FailingResolverNeverAllowsMore(res: Resolver, tree: OrgTree, p: Principal, perm: Permission, target: Scope)
    requires Truthful(res, tree) && Require(res, Some(p), perm, target)
    ensures Allowed(tree, p, perm, target)
  {
    RequireIsFirstDecision(res, p.grants, perm, target);
    var i :| DecidesAt(res, p.grants, perm, target, i);
    assert Covers(tree, p.grants[i], perm, target);
  }

  // ---------------------------------------------------------------------
  // API tokens

  /** A row of api_tokens; `scopeId` is present exactly for customer and site scopes. */
  datatype Token = Token(kind: ScopeType, scopeId: Option<Id>, permissions: seq<Permission>)

  function TokenScope(t: Token): Scope {
    Scope(t.kind, if t.scopeId.Some? then t.scopeId.value else NO_ID)
  }

  /** authAPIToken: the principal a token authenticates as. */
  function Bearer(t: Token): Principal {
    Principal([Grant(TokenScope(t), t.permissions)])
  }

  /** handleCreateAPIToken's checks, in order; false is any of its error answers. */
  predicate MayMint(res: Resolver, minter: Principal, t: Token) {
    && t.permissions != []
    && t.kind in {Tenant, Customer, Site}
    && (t.kind == Tenant <==> t.scopeId.None?)
    && (forall perm :: perm in t.permissions ==> !perm.NotAPermission?)
    && Require(res, Some(minter), TokensManage, TENANT_SCOPE)
    && (forall perm :: perm in t.permissions ==> Require(res, Some(minter), perm, TokenScope(t)))
  }

  /**
   What a token reaches: everything for a tenant token, one customer with its sites for a
   customer token, one site for a site token.
   */
  lemma BearerReach(tree: OrgTree, t: Token, perm: Permission, target: Scope)
    requires t.kind in {Tenant, Customer, Site} && (t.kind == Tenant <==> t.scopeId.None?)
    ensures Require(Live(tree), Some(Bearer(t)), perm, target) <==>
              && perm in t.permissions
              && match t.kind
                 case Tenant => true
                 case Customer => target == Scope(Customer, t.scopeId.value)
                                  || (target.kind == Site && target.id in tree && tree[target.id] == t.scopeId.value)
                 case _ => target == Scope(Site, t.scopeId.value)
  {
    RequireSpelledOut(tree, Bearer(t), perm, target);
    assert Bearer(t).grants[0].permissions == t.permissions;
  }

  /**
   Exactly which tokens may be minted: well-formed ones, by someone with tenant-wide tokens.manage
   who holds every permission of the token where the token will hold it.
   */
  lemma MintingSpelledOut(tree: OrgTree, minter: Principal, t: Token)
    ensures MayMint(Live(tree), minter, t) <==>
              && t.permissions != [] && (forall perm :: perm in t.permissions ==> !perm.NotAPermission?)
              && (exists i :: 0 <= i < |minter.grants| && minter.grants[i].scope.kind == Tenant && TokensManage in minter.grants[i].permissions)
              && match t.kind
                 case Tenant => t.scopeId.None? && forall perm :: perm in t.permissions ==> Allowed(tree, minter, perm, Scope(Tenant, 0))
                 case Unknown(_) => false
                 case _ => t.scopeId.Some? && forall perm :: perm in t.permissions ==> Allowed(tree, minter, perm, Scope(t.kind, t.scopeId.value))
  {
    forall perm, target {
      RequireMeansCovered(tree, minter, perm, target);
    }
    if i :| 0 <= i < |minter.grants| && minter.grants[i].scope.kind == Tenant && TokensManage in minter.grants[i].permissions {
      assert Covers(tree, minter.grants[i], TokensManage, TENANT_SCOPE);
    }
    if Allowed(tree, minter, TokensManage, TENANT_SCOPE) {
      var i :| 0 <= i < |minter.grants| && Covers(tree, minter.grants[i], TokensManage, TENANT_SCOPE);
      assert minter.grants[i].scope.kind == Tenant;
    }
  }

  /** Who minted the `i`-th token of a chain: the root user, or the bearer of the token before it. */
  function Minter(root: Principal, chain: seq<Token>, i: nat): Principal
    requires i < |chain|
  {
    if i == 0 then root else Bearer(chain[i - 1])
  }

  predicate Minted(tree: OrgTree, root: Principal, chain: seq<Token>, i: nat)
    requires i < |chain|
  {
    MayMint(Live(tree), Minter(root, chain, i), chain[i])
  }

  ghost predicate MintedChain(tree: OrgTree, root: Principal, chain: seq<Token>) {
    forall i :: 0 <= i < |chain| ==> Minted(tree, root, chain, i)
  }

  /** Whoever holds a permission at a scope holds it wherever that scope reaches. */
  lemma CoverageReachesInside(tree: OrgTree, p: Principal, g: Grant, perm: Permission, target: Scope)
    requires g.scope.kind == Tenant ==> g.scope == TENANT_SCOPE
    requires perm in g.permissions && Allowed(tree, p, perm, g.scope) && Covers(tree, g, perm, target)
    ensures Allowed(tree, p, perm, target)
  {
    var i :| 0 <= i < |p.grants| && Covers(tree, p.grants[i], perm, g.scope);
    assert Covers(tree, p.grants[i], perm, target);
  }

  lemma MintingNeverWidens(tree: OrgTree, minter: Principal, t: Token, perm: Permission, target: Scope)
    requires MayMint(Live(tree), minter, t) && Allowed(tree, Bearer(t), perm, target)
    ensures Allowed(tree, minter, perm, target)
  {
    RequireMeansCovered(tree, minter, perm, TokenScope(t));
    CoverageReachesInside(tree, minter, Bearer(t).grants[0], perm, target);
  }

  lemma LinkNeverWidens(tree: OrgTree, root: Principal, chain: seq<Token>, i: nat, perm: Permission, target: Scope)
    requires MintedChain(tree, root, chain) && i < |chain| && Allowed(tree, Bearer(chain[i]), perm, target)
    ensures Allowed(tree, Minter(root, chain, i), perm, target)
  {
    assert Minted(tree, root, chain, i);
    MintingNeverWidens(tree, Minter(root, chain, i), chain[i], perm, target);
  }

  lemma {:induction false} ChainCoverage(tree: OrgTree, root: Principal, chain: seq<Token>, i: nat, perm: Permission, target: Scope)
    requires MintedChain(tree, root, chain) && i < |chain| && Allowed(tree, Bearer(chain[i]), perm, target)
    ensures Allowed(tree, root, perm, target)
  {
    LinkNeverWidens(tree, root, chain, i, perm, target);
    if i > 0 {
      ChainCoverage(tree, root, chain, i - 1, perm, target);
    }
  }

  /**
   Along any chain of tokens minted from tokens, no token can do anything, at any target,
   that the user at the root of the chain could not do.
   */
  lemma {:induction false} ChainNeverWidens(tree: OrgTree, root: Principal, chain: seq<Token>, i: nat, perm: Permission, target: Scope)
    requires MintedChain(tree, root, chain) && i < |chain|
    requires Require(Live(tree), Some(Bearer(chain[i])), perm, target)
    ensures Require(Live(tree), Some(Minter(root, chain, i)), perm, target)
    ensures Require(Live(tree), Some(root), perm, target)
  {
    RequireMeansCovered(tree, Bearer(chain[i]), perm, target);
    LinkNeverWidens(tree, root, chain, i, perm, target);
    ChainCoverage(tree, root, chain, i, perm, target);
    RequireMeansCovered(tree, Minter(root, chain, i), perm, target);
    RequireMeansCovered(tree, root, perm, target);
  }

  /** Minting takes a tenant-wide grant, so only the last token of a chain can be narrower than the tenant. */
  lemma {:induction false} MintersAreTenantWide(tree: OrgTree, root: Principal, chain: seq<Token>, i: nat)
    requires MintedChain(tree, root, chain) && i + 1 < |chain|
    ensures chain[i].kind == Tenant && TokensManage in chain[i].permissions
  {
    assert Minted(tree, root, chain, i + 1);
    RequireMeansCovered(tree, Bearer(chain[i]), TokensManage, TENANT_SCOPE);
    assert Minted(tree, root, chain, i);
  }

  // ---------------------------------------------------------------------
  // Fast paths

  /** A device row as the list and dispatch queries return it. */
  datatype Device = Device(id: Id, site: Id, customer: Id)

  predicate HasTenantWide(p: Principal, perm: Permission) {
    exists i :: 0 <= i < |p.grants| && p.grants[i].scope.kind == Tenant && perm in p.grants[i].permissions
  }

  /** The permission is held tenant-wide or at the customer itself, which no query has to confirm. */
  ghost predicate HeldAbove(p: Principal, perm: Permission, customer: Id) {
    exists i :: 0 <= i < |p.grants| && perm in p.grants[i].permissions && p.grants[i].scope.kind in {Tenant, Customer}
                && (p.grants[i].scope.kind == Customer ==> p.grants[i].scope.id == customer)
  }

  /** Principal.CustomerIDsWith. */
  method CustomerIDsWith(p: Principal, perm: Permission) returns (ids: seq<Id>)
    ensures forall c :: c in ids <==>
              exists i :: 0 <= i < |p.grants| && p.grants[i].scope == Scope(Customer, c) && perm in p.grants[i].permissions
  {
    ids := [];
    for k := 0 to |p.grants|
      invariant forall c :: c in ids <==>
                  exists i :: 0 <= i < k && p.grants[i].scope == Scope(Customer, c) && perm in p.grants[i].permissions
    {
      var g := p.grants[k];
      if g.scope.kind == Customer && perm in g.permissions {
        ids := ids + [g.scope.id];
        assert g.scope == Scope(Customer, g.scope.id);
      }
    }
  }

  /** Devices of `ds` at whose site Require succeeds, in order. */
  function Visible(res: Resolver, p: Principal, ds: seq<Device>): (r: seq<Device>)
    ensures forall d :: d in r <==> d in ds && Require(res, Some(p), DevicesRead, Scope(Site, d.site))
  {
    if ds == [] then []
    else
      var d := ds[|ds| - 1];
      Visible(res, p, ds[..|ds| - 1]) +
      (if Require(res, Some(p), DevicesRead, Scope(Site, d.site)) then [d] else [])
  }

  /** The device's customer is the customer of its site: the join behind the list query. */
  ghost predicate Joined(tree: OrgTree, ds: seq<Device>) {
    forall d :: d in ds ==> d.site in tree && tree[d.site] == d.customer
  }

  /**
   handleListDevices: a tenant-wide flag, then the customer set, then the per-site check.
   With a resolver that answers, exactly the devices Require allows come out, in list order;
   with one that may fail, nothing Require allows is hidden, nor what a tenant-wide grant or one on
   the device's customer covers.
   */
  method ListDevices(res: Resolver, tree: OrgTree, p: Principal, ds: seq<Device>) returns (out: seq<Device>)
    requires Joined(tree, ds)
    ensures res == Live(tree) ==> out == Visible(res, p, ds)
    ensures forall d :: d in ds && Require(res, Some(p), DevicesRead, Scope(Site, d.site)) ==> d in out
    ensures forall d :: d in out ==> d in ds
    ensures forall d :: d in ds && HeldAbove(p, DevicesRead, d.customer) ==> d in out
    ensures Truthful(res, tree) ==> forall d :: d in out ==> Allowed(tree, p, DevicesRead, Scope(Site, d.site))
  {
    var all := HasTenantWide(p, DevicesRead);
    var allowedCustomers: seq<Id> := [];
    if !all {
      allowedCustomers := CustomerIDsWith(p, DevicesRead);
    }
    out := [];
    assert ds[..0] == [];
    for k := 0 to |ds|
      invariant res == Live(tree) ==> out == Visible(res, p, ds[..k])
      invariant forall d :: d in ds[..k] && Require(res, Some(p), DevicesRead, Scope(Site, d.site)) ==> d in out
      invariant forall d :: d in out ==> d in ds[..k]
      invariant forall d :: d in ds[..k] && (all || d.customer in allowedCustomers) ==> d in out
      invariant Truthful(res, tree) ==> forall d :: d in out ==> Allowed(tree, p, DevicesRead, Scope(Site, d.site))
    {
      var d := ds[k];
      var target := Scope(Site, d.site);
      assert d in ds;
      assert ds[..k + 1][..k] == ds[..k] && ds[..k + 1] == ds[..k] + [d];
      if all || d.customer in allowedCustomers {
        FastPathIsAllowed(tree, p, d, all, allowedCustomers);
        RequireMeansCovered(tree, p, DevicesRead, target);
        out := out + [d];
      } else if Require(res, Some(p), DevicesRead, target) {
        if Truthful(res, tree) {
          FailingResolverNeverAllowsMore(res, tree, p, DevicesRead, target);
        }
        out := out + [d];
      }
    }
    assert ds[..|ds|] == ds;
  }

  lemma FastPathIsAllowed(tree: OrgTree, p: Principal, d: Device, all: bool, customers: seq<Id>)
    requires all == HasTenantWide(p, DevicesRead)
    requires forall c :: c in customers ==>
               exists i :: 0 <= i < |p.grants| && p.grants[i].scope == Scope(Customer, c) && DevicesRead in p.grants[i].permissions
    requires d.site in tree && tree[d.site] == d.customer
    requires all || d.customer in customers
    ensures Allowed(tree, p, DevicesRead, Scope(Site, d.site))
  {
  }

  /**
   resolveAuthorizedTarget: one check per distinct site.  It succeeds iff Require succeeds for
   every resolved device, and then returns them all, unfiltered.
   */
  method AuthorizeTarget(res: Resolver, p: Principal, perm: Permission, devices: seq<Device>)
    returns (r: Option<seq<Device>>)
    ensures r.Some? <==> forall d :: d in devices ==> Require(res, Some(p), perm, Scope(Site, d.site))
    ensures r.Some? ==> r.value == devices
  {
    var checkedSites: set<Id> := {};
    for k := 0 to |devices|
      invariant forall d :: d in devices[..k] ==> d.site in checkedSites
      invariant forall site :: site in checkedSites ==> Require(res, Some(p), perm, Scope(Site, site))
    {
      var d := devices[k];
      assert devices[..k + 1] == devices[..k] + [d];
      if d.site !in checkedSites {
        if !Require(res, Some(p), perm, Scope(Site, d.site)) {
          assert d in devices;
          return None;
        }
        checkedSites := checkedSites + {d.site};
      }
    }
    assert devices[..|devices|] == devices;
    return Some(devices);
  }
}
