/** Authorization of API requests in go/api-frontend/aaa: the first table entry whose prefix the path has
    names the admin role a request needs; the token's roles, its tenant and the namespace of the path must
    all allow it. */
module Authorization {
  import opened Options
  import Sequences

  // ---------- the path table ----------

  datatype Mapping = Mapping(prefix: string, role: string, roleSuffix: string)

  /** What the table says about a path. */
  datatype Need = Need(role: string, roleSuffix: string)

  function NeedOf(m: Mapping): Need
  {
    Need(m.role, m.roleSuffix)
  }

  const SYSTEM_NEED := Need("SYSTEM", "")

  predicate Hits(m: Mapping, path: string)
  {
    m.prefix <= path && m.role != ""
  }

  ghost predicate IsFirst(table: seq<Mapping>, path: string, i: nat)
  {
    i < |table| && Hits(table[i], path) && forall k :: 0 <= k < i ==> !Hits(table[k], path)
  }

  /** The entry with the longest prefix; of several, the first. */
  ghost predicate IsLongest(table: seq<Mapping>, path: string, i: nat)
  {
    && i < |table| && Hits(table[i], path)
    && (forall k :: 0 <= k < |table| && Hits(table[k], path) ==> |table[k].prefix| <= |table[i].prefix|)
    && (forall k :: 0 <= k < i && Hits(table[k], path) ==> |table[k].prefix| < |table[i].prefix|)
  }

  /** On this path the first match says what the longest match says. */
  ghost predicate Agree(table: seq<Mapping>, path: string)
  {
    forall i: nat, j: nat :: IsFirst(table, path, i) && IsLongest(table, path, j) ==>
                     NeedOf(table[i]) == NeedOf(table[j])
  }

  /** What is matched on a path is matched on the longest matching prefix itself. */
  lemma LongestPrefixStandsForPath(table: seq<Mapping>, path: string, i: nat, j: nat)
    requires IsFirst(table, path, i) && IsLongest(table, path, j)
    ensures IsFirst(table, table[j].prefix, i) && IsLongest(table, table[j].prefix, j)
  {
    var p := table[j].prefix;
    forall k | 0 <= k < |table|
      ensures Hits(table[k], p) <==> Hits(table[k], path)
    {
      if Hits(table[k], path) {
        assert table[k].prefix == path[..|table[k].prefix|] == p[..|table[k].prefix|];
      }
    }
  }

  /** First match and longest match agree on every path exactly when they agree on the finitely many
      prefixes of the table. */
  lemma AgreementIsFinite(table: seq<Mapping>)
    ensures (forall path :: Agree(table, path)) <==> (forall j :: 0 <= j < |table| ==> Agree(table, table[j].prefix))
  {
    if forall j :: 0 <= j < |table| ==> Agree(table, table[j].prefix) {
      forall path, i: nat, j: nat | IsFirst(table, path, i) && IsLongest(table, path, j)
        ensures NeedOf(table[i]) == NeedOf(table[j])
      {
        LongestPrefixStandsForPath(table, path, i, j);
        assert Agree(table, table[j].prefix);
      }
    }
  }

  // ---------- the decision ----------

  const ALLOW_ANY := "*"
  const ACCESS_ALL_TENANTS := 0
  const ACCESS_NO_TENANTS := -1
  const CONFIG_PREFIX := "/api/v1/config"
  const METHOD_SUFFIXES: map<string, string> := map[
    "GET" := "_READ", "OPTIONS" := "_READ", "POST" := "_CREATE", "PUT" := "_UPDATE", "PATCH" := "_UPDATE", "DELETE" := "_DELETE"]

  const ALL_TENANTS_PATHS := [
    CONFIG_PREFIX + "/security_events", CONFIG_PREFIX + "/security_event/",
    CONFIG_PREFIX + "/base/guests_admin_registration", CONFIG_PREFIX + "/admin_roles"]

  const MULTI_TENANT_DENY_PATHS := ["/api/v1/queues", "/api/v1/services", "/api/v1/service"]

  datatype Denial = UnknownMethod | LacksRole(role: string) | NoTenants | OtherTenant | SingleTenantConfig | SingleTenantPath

  datatype Token = Token(adminRoles: set<string>, tenantId: int)

  /** The server's configuration: the path table, the actions of each admin role, multi-tenant mode. */
  datatype Server = Server(table: seq<Mapping>, roleActions: map<string, set<string>>, multipleTenants: bool)

  predicate IsTenantMaster(srv: Server, token: Token)
  {
    !srv.multipleTenants || token.tenantId == ACCESS_ALL_TENANTS
  }

  /** The actions of all the token's roles, and one more for a tenant master. */
  function AdminActions(srv: Server, token: Token): (actions: set<string>)
  {
    (set r, a | r in token.adminRoles && r in srv.roleActions && a in srv.roleActions[r] :: a)
    + (if IsTenantMaster(srv, token) then {"TENANT_MASTER"} else {})
  }

  /** The role and suffix the first match names; an unmatched path needs SYSTEM. */
  function FirstNeed(table: seq<Mapping>, path: string): (need: Need)
  {
    if table == [] then SYSTEM_NEED
    else if Hits(table[0], path) then NeedOf(table[0])
    else FirstNeed(table[1..], path)
  }

  lemma {:induction false} FirstNeedIsFirst(table: seq<Mapping>, path: string, i: nat)
    requires IsFirst(table, path, i)
    ensures FirstNeed(table, path) == NeedOf(table[i])
  {
    if i > 0 {
      assert !Hits(table[0], path);
      FirstNeedIsFirst(table[1..], path, i - 1);
    }
  }

  lemma {:induction false} NoMatchNeedsSystem(table: seq<Mapping>, path: string)
    requires forall m :: m in table ==> !Hits(m, path)
    ensures FirstNeed(table, path) == SYSTEM_NEED
  {
    if table != [] {
      assert table[0] in table;
      NoMatchNeedsSystem(table[1..], path);
    }
  }

  lemma {:induction false} FirstExists(table: seq<Mapping>, path: string, j: nat) returns (i: nat)
    requires j < |table| && Hits(table[j], path)
    ensures IsFirst(table, path, i)
    decreases j
  {
    if k :| 0 <= k < j && Hits(table[k], path) {
      i := FirstExists(table, path, k);
    } else {
      i := j;
    }
  }

  /** Starting from a match, one that is longer, or as long and earlier, as often as there is one. */
  lemma {:induction false} LongestExists(table: seq<Mapping>, path: string, i: nat) returns (j: nat)
    requires i < |table| && Hits(table[i], path)
    ensures IsLongest(table, path, j)
    decreases |path| - |table[i].prefix|, i
  {
    if k: nat :| k < |table| && Hits(table[k], path) && |table[k].prefix| > |table[i].prefix| {
      j := LongestExists(table, path, k);
    } else if k: nat :| k < i && Hits(table[k], path) && |table[k].prefix| == |table[i].prefix| {
      j := LongestExists(table, path, k);
    } else {
      j := i;
    }
  }

  /** Where first and longest match agree, the need is that of the longest match; without a match, SYSTEM. */
  lemma AgreementDecides(table: seq<Mapping>, path: string)
    requires Agree(table, path)
    ensures var need := FirstNeed(table, path);
            || (exists j: nat :: IsLongest(table, path, j) && need == NeedOf(table[j]))
            || (need == SYSTEM_NEED && forall m :: m in table ==> !Hits(m, path))
  {
    if k: nat :| k < |table| && Hits(table[k], path) {
      var i := FirstExists(table, path, k);
      var j := LongestExists(table, path, k);
      FirstNeedIsFirst(table, path, i);
    } else {
      NoMatchNeedsSystem(table, path);
    }
  }

  method FindNeed(table: seq<Mapping>, path: string) returns (need: Need)
    ensures need == FirstNeed(table, path)
  {
    need := Need("", "");
    for i := 0 to |table|
      invariant need == Need("", "") && FirstNeed(table[i..], path) == FirstNeed(table, path)
    {
      assert table[i..][1..] == table[i + 1..];
      if table[i].prefix <= path && table[i].role != "" {
        need := NeedOf(table[i]);
        break;
      }
    }
    if need.role == "" {
      need := SYSTEM_NEED;
    }
  }

  function ActionsDenial(srv: Server, verb: string, path: string, actions: set<string>): (r: Option<Denial>)
  {
    var need := FirstNeed(srv.table, path);
    if need.roleSuffix == "" && verb !in METHOD_SUFFIXES then Some(UnknownMethod)
    else
      var suffix :=
        if verb == "POST" && Sequences.HasSuffix(path, "/search") then "_READ"
        else if need.roleSuffix == "" then METHOD_SUFFIXES[verb]
        else need.roleSuffix;
      if need.role == ALLOW_ANY || need.role + suffix in actions then None else Some(LacksRole(need.role + suffix))
  }

  function TenantDenial(requestTenant: int, tokenTenant: int): (r: Option<Denial>)
  {
    if tokenTenant == ACCESS_NO_TENANTS then Some(NoTenants)
    else if tokenTenant == ACCESS_ALL_TENANTS || requestTenant == tokenTenant then None
    else Some(OtherTenant)
  }

  predicate StartsWithAny(path: string, prefixes: seq<string>)
  {
    exists i :: 0 <= i < |prefixes| && prefixes[i] <= path
  }

  function NamespaceDenial(srv: Server, verb: string, path: string, token: Token): (r: Option<Denial>)
  {
    if IsTenantMaster(srv, token) then None
    else if CONFIG_PREFIX <= path && !((verb == "GET" || verb == "OPTIONS") && StartsWithAny(path, ALL_TENANTS_PATHS)) then
      Some(SingleTenantConfig)
    else if StartsWithAny(path, MULTI_TENANT_DENY_PATHS) then Some(SingleTenantPath)
    else None
  }

  /** The three checks in order; the first denial counts. */
  function Decide(srv: Server, verb: string, path: string, requestTenant: int, token: Token): (r: Option<Denial>)
  {
    var byActions := ActionsDenial(srv, verb, path, AdminActions(srv, token));
    var byTenant := TenantDenial(requestTenant, token.tenantId);
    if byActions.Some? then byActions else if byTenant.Some? then byTenant else NamespaceDenial(srv, verb, path, token)
  }

  /** More admin roles never turn an allowed request into a denied one, and can only lift denials for a
      lacking role. */
  lemma MoreRolesNeverDeny(srv: Server, verb: string, path: string, requestTenant: int, token: Token, more: set<string>)
    requires token.adminRoles <= more
    ensures var before := Decide(srv, verb, path, requestTenant, token);
            var after := Decide(srv, verb, path, requestTenant, token.(adminRoles := more));
            after == before || (before.Some? && before.value.LacksRole?)
  {
    assert AdminActions(srv, token) <= AdminActions(srv, token.(adminRoles := more));
  }

  // ---------- what an allowed request is ----------

  /** The suffix a request needs: reading for a search, the one the table gives, or that of its method. */
  ghost function RequiredSuffix(verb: string, path: string, given: string): (r: Option<string>)
  {
    var byVerb :=
      if verb == "GET" || verb == "OPTIONS" then Some("_READ")
      else if verb == "POST" then Some("_CREATE")
      else if verb == "PUT" || verb == "PATCH" then Some("_UPDATE")
      else if verb == "DELETE" then Some("_DELETE")
      else None;
    if given == "" && byVerb.None? then None
    else if verb == "POST" && "/search" == path[if |path| < 7 then 0 else |path| - 7..] then Some("_READ")
    else if given != "" then Some(given)
    else byVerb
  }

  /** The role check lets a request through exactly when its method is known and its path is open to everyone or
      the action it needs is among the token's. */
  lemma RoleCheckIff(srv: Server, verb: string, path: string, actions: set<string>)
    ensures var need := FirstNeed(srv.table, path);
            var suffix := RequiredSuffix(verb, path, need.roleSuffix);
            ActionsDenial(srv, verb, path, actions).None? <==>
              suffix.Some? && (need.role == "*" || need.role + suffix.value in actions)
  {
  }

  /** An allowed request is for a tenant of its token. */
  lemma AllowedStaysInTenant(srv: Server, verb: string, path: string, requestTenant: int, token: Token)
    requires Decide(srv, verb, path, requestTenant, token).None?
    ensures token.tenantId != -1 && (token.tenantId == 0 || requestTenant == token.tenantId)
  {
  }

  const OPEN_CONFIG := ["/security_events", "/security_event/", "/base/guests_admin_registration", "/admin_roles"]

  /** With several tenants, a token of one of them only ever reads the four open parts of the configuration... */
  lemma SingleTenantReadsOpenConfig(srv: Server, verb: string, path: string, requestTenant: int, token: Token)
    requires Decide(srv, verb, path, requestTenant, token).None? && srv.multipleTenants && token.tenantId != 0
    requires "/api/v1/config" <= path
    ensures (verb == "GET" || verb == "OPTIONS") && exists i :: 0 <= i < 4 && CONFIG_PREFIX + OPEN_CONFIG[i] <= path
  {
    var i :| 0 <= i < |ALL_TENANTS_PATHS| && ALL_TENANTS_PATHS[i] <= path;
    assert ALL_TENANTS_PATHS[i] == CONFIG_PREFIX + OPEN_CONFIG[i];
  }

  /** ...and never reaches queues and services. */
  lemma SingleTenantIsConfined(srv: Server, verb: string, path: string, requestTenant: int, token: Token)
    requires Decide(srv, verb, path, requestTenant, token).None? && srv.multipleTenants && token.tenantId != 0
    ensures !("/api/v1/queues" <= path) && !("/api/v1/service" <= path)
  {
    assert MULTI_TENANT_DENY_PATHS[0] == "/api/v1/queues" && MULTI_TENANT_DENY_PATHS[2] == "/api/v1/service";
  }

  /** A token of all tenants is held back by nothing but the role check. */
  lemma MasterAllowedIff(srv: Server, verb: string, path: string, requestTenant: int, token: Token)
    requires token.tenantId == 0
    ensures Decide(srv, verb, path, requestTenant, token) == ActionsDenial(srv, verb, path, AdminActions(srv, token))
  {
  }

  ghost predicate ReadsOnly(srv: Server, token: Token)
  {
    forall r, a :: r in token.adminRoles && r in srv.roleActions && a in srv.roleActions[r] ==> Sequences.HasSuffix(a, "_READ")
  }

  lemma ChangingIsNotReading(role: string, verb: string)
    requires verb in {"POST", "PUT", "PATCH", "DELETE"}
    ensures var action := role + METHOD_SUFFIXES[verb]; !Sequences.HasSuffix(action, "_READ") && action != "TENANT_MASTER"
  {
    var action := role + METHOD_SUFFIXES[verb];
    assert action[|action| - 1] == 'E';
    if |action| >= 5 {
      assert action[|action| - 5..][4] == 'E';
    }
  }

  /** A token whose roles only read is never allowed to change anything, unless the path is open to everyone or
      the table itself asks no more than reading. */
  lemma ReadersNeverChange(srv: Server, verb: string, path: string, requestTenant: int, token: Token)
    requires Decide(srv, verb, path, requestTenant, token).None? && ReadsOnly(srv, token)
    requires verb in {"PUT", "PATCH", "DELETE"} || (verb == "POST" && !Sequences.HasSuffix(path, "/search"))
    ensures var need := FirstNeed(srv.table, path); need.role == "*" || need.roleSuffix != ""
  {
    var need := FirstNeed(srv.table, path);
    RoleCheckIff(srv, verb, path, AdminActions(srv, token));
    if need.roleSuffix == "" {
      ChangingIsNotReading(need.role, verb);
    }
  }

  /** Where there is one tenant only, no request is confined. */
  lemma OneTenantIsNotConfined(srv: Server, verb: string, path: string, requestTenant: int, token: Token)
    requires !srv.multipleTenants
    ensures var r := Decide(srv, verb, path, requestTenant, token);
            r.Some? ==> r.value.UnknownMethod? || r.value.LacksRole? || r.value.NoTenants? || r.value.OtherTenant?
  {
  }

  /** A token's actions are those of its own roles, and one more for the master of all tenants. */
  lemma ActionsComeFromRoles(srv: Server, token: Token, action: string)
    ensures action in AdminActions(srv, token) <==>
            || (exists r :: r in token.adminRoles * srv.roleActions.Keys && action in srv.roleActions[r])
            || (action == "TENANT_MASTER" && (token.tenantId == 0 || !srv.multipleTenants))
  {
    if r :| r in token.adminRoles && r in srv.roleActions && action in srv.roleActions[r] {
      assert r in token.adminRoles * srv.roleActions.Keys;
    }
  }
}
