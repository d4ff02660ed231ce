/**
 Which Services of a KongUpstreamPolicy conflict: a rule of an HTTPRoute becomes one Kong service, so
 all its backends have to use the same policy. The routes of a Service are found through an index.
 */
module UpstreamPolicyConflicts {
  import opened Common
  import Text

  datatype BackendRef = BackendRef(group: Option<string>, kind: Option<string>, namespace: Option<string>, name: string)

  type Rule = seq<BackendRef>

  datatype HTTPRoute = HTTPRoute(namespace: string, rules: seq<Rule>)

  // ---------------------------------------------------------------- service keys

  /** isSupportedHTTPRouteBackendRef */
  predicate IsSupported(br: BackendRef) {
    br.group.GetOr("") in {"", "core"} && br.kind.GetOr("Service") == "Service"
  }

  function BuildServiceReference(s: NamespacedName): string {
    s.namespace + "/" + s.name
  }

  function ResolvedName(routeNamespace: string, br: BackendRef): NamespacedName {
    NamespacedName(br.namespace.GetOr(routeNamespace), br.name)
  }

  /** backendRefToServiceRef: "" for a backend that is not a core Service. */
  function BackendRefToServiceRef(routeNamespace: string, br: BackendRef): string {
    if IsSupported(br) then BuildServiceReference(ResolvedName(routeNamespace, br)) else ""
  }

  /** Keys identify Services, since namespaces hold no "/"; no Service has the key "". */
  lemma ServiceKeyInjective(s: NamespacedName, t: NamespacedName)
    requires '/' !in s.namespace && '/' !in t.namespace
    ensures BuildServiceReference(s) == BuildServiceReference(t) ==> s == t
    ensures BuildServiceReference(s) != ""
  {
    if BuildServiceReference(s) == BuildServiceReference(t) {
      Text.SplitUnique(s.namespace, s.name, '/', t.namespace, t.name);
    }
  }

  // ---------------------------------------------------------------- the index

  /** The rule has a backend with the key. */
  ghost predicate Holds(namespace: string, rule: Rule, key: string) {
    exists br :: br in rule && BackendRefToServiceRef(namespace, br) == key
  }

  ghost predicate RouteHolds(route: HTTPRoute, key: string) {
    exists rule :: rule in route.rules && Holds(route.namespace, rule, key)
  }

  /** indexRoutesOnBackendRefServiceName: the keys under which a route is filed. */
  method IndexKeys(route: HTTPRoute) returns (indexes: seq<string>)
    ensures forall key :: key in indexes <==> key != "" && RouteHolds(route, key)
  {
    indexes := [];
    for r := 0 to |route.rules|
      invariant forall key :: key in indexes <==> key != "" && RouteHolds(route.(rules := route.rules[..r]), key)
    {
      var rule := route.rules[r];
      ghost var before := indexes;
      for i := 0 to |rule|
        invariant forall key :: key in indexes <==>
                    key in before || (key != "" && Holds(route.namespace, rule[..i], key))
      {
        var serviceRef := BackendRefToServiceRef(route.namespace, rule[i]);
        HoldsSnoc(route.namespace, rule, i);
        if serviceRef == "" {
          continue;
        }
        indexes := indexes + [serviceRef];
      }
      assert rule[..|rule|] == rule;
      RouteHoldsSnoc(route, r);
    }
    assert route.rules[..|route.rules|] == route.rules;
  }

  lemma HoldsSnoc(namespace: string, rule: Rule, i: nat)
    requires i < |rule|
    ensures forall key :: Holds(namespace, rule[..i + 1], key) <==>
                            Holds(namespace, rule[..i], key) || BackendRefToServiceRef(namespace, rule[i]) == key
  {
    assert rule[..i + 1] == rule[..i] + [rule[i]];
    assert forall br :: br in rule[..i + 1] <==> br in rule[..i] || br == rule[i];
    assert Holds(namespace, rule[..i + 1], BackendRefToServiceRef(namespace, rule[i])) by {
      assert rule[i] in rule[..i + 1];
    }
  }

  lemma RouteHoldsSnoc(route: HTTPRoute, r: nat)
    requires r < |route.rules|
    ensures forall key :: RouteHolds(route.(rules := route.rules[..r + 1]), key) <==>
                            RouteHolds(route.(rules := route.rules[..r]), key)
                              || Holds(route.namespace, route.rules[r], key)
  {
    hide Holds;
    assert route.rules[..r + 1] == route.rules[..r] + [route.rules[r]];
    assert forall rule :: rule in route.rules[..r + 1] <==> rule in route.rules[..r] || rule == route.rules[r];
  }

  /** Listing by the index: the routes filed under the key. */
  method ListRoutes(routes: seq<HTTPRoute>, key: string) returns (found: seq<HTTPRoute>)
    ensures forall route :: route in found <==> route in routes && key != "" && RouteHolds(route, key)
  {
    found := [];
    for i := 0 to |routes|
      invariant forall route :: route in found <==> route in routes[..i] && key != "" && RouteHolds(route, key)
    {
      var indexes := IndexKeys(routes[i]);
      if key in indexes {
        found := found + [routes[i]];
      }
      assert routes[..i + 1] == routes[..i] + [routes[i]];
    }
    assert routes[..|routes|] == routes;
  }

  // ---------------------------------------------------------------- conflicts

  /** The rule has a supported backend outside the policy's services. */
  ghost predicate Strays(namespace: string, rule: Rule, policy: set<string>) {
    exists br :: br in rule && IsSupported(br) && BackendRefToServiceRef(namespace, br) !in policy
  }

  ghost predicate RuleConflicts(namespace: string, rule: Rule, policy: set<string>, key: string) {
    Holds(namespace, rule, key) && Strays(namespace, rule, policy)
  }

  /** Over all rules of all routes, without any index. */
  ghost predicate Conflicts(routes: seq<HTTPRoute>, policy: set<string>, key: string) {
    exists route, rule :: route in routes && rule in route.rules && RuleConflicts(route.namespace, rule, policy, key)
  }

  /** getAllBackendRefsUsedWithService: the other backends of the rules that hold the service. */
  method BackendRefsUsedWith(route: HTTPRoute, key: string) returns (refs: seq<BackendRef>)
    ensures forall policy: set<string> :: key in policy ==>
              (Strays(route.namespace, refs, policy) <==> SomeRuleConflicts(route.namespace, route.rules, policy, key))
  {
    refs := [];
    for r := 0 to |route.rules|
      invariant CollectedFrom(route.namespace, route.rules[..r], key, refs)
    {
      var rule := route.rules[r];
      var matchingIdx := FindRef(route.namespace, rule, key);
      ghost var before := refs;
      if matchingIdx.Some? {
        refs := refs + rule[..matchingIdx.value];
        refs := refs + rule[matchingIdx.value + 1..];
        OthersStray(route.namespace, rule, matchingIdx.value, key, before);
        assert refs == before + (rule[..matchingIdx.value] + rule[matchingIdx.value + 1..]);
      }
      CollectedSnoc(route.namespace, route.rules, r, key, before, refs);
    }
    assert route.rules[..|route.rules|] == route.rules;
  }

  /** The first backend with the key. */
  method FindRef(namespace: string, rule: Rule, key: string) returns (idx: Option<nat>)
    ensures idx.None? <==> !Holds(namespace, rule, key)
    ensures idx.Some? ==> idx.value < |rule| && BackendRefToServiceRef(namespace, rule[idx.value]) == key
  {
    for i := 0 to |rule|
      invariant !Holds(namespace, rule[..i], key)
    {
      HoldsSnoc(namespace, rule, i);
      if BackendRefToServiceRef(namespace, rule[i]) == key {
        assert rule[i] in rule;
        return Some(i);
      }
    }
    assert rule[..|rule|] == rule;
    return None;
  }

  ghost predicate SomeRuleConflicts(namespace: string, rules: seq<Rule>, policy: set<string>, key: string) {
    exists rule :: rule in rules && RuleConflicts(namespace, rule, policy, key)
  }

  ghost predicate CollectedFrom(namespace: string, rules: seq<Rule>, key: string, refs: seq<BackendRef>) {
    forall policy: set<string> :: key in policy ==>
      (Strays(namespace, refs, policy) <==> SomeRuleConflicts(namespace, rules, policy, key))
  }

  /** Leaving out a backend of the policy's own service hides no stray backend. */
  lemma OthersStray(namespace: string, rule: Rule, i: nat, key: string, before: seq<BackendRef>)
    requires i < |rule| && BackendRefToServiceRef(namespace, rule[i]) == key
    ensures forall policy: set<string> :: key in policy ==>
              (Strays(namespace, before + (rule[..i] + rule[i + 1..]), policy) <==>
                 Strays(namespace, before, policy) || Strays(namespace, rule, policy))
  {
    var refs := before + (rule[..i] + rule[i + 1..]);
    assert rule == rule[..i] + [rule[i]] + rule[i + 1..];
    assert forall br :: br in rule <==> br in rule[..i] || br == rule[i] || br in rule[i + 1..];
    assert forall br :: br in refs <==> br in before || br in rule[..i] || br in rule[i + 1..];
  }

  lemma CollectedSnoc(namespace: string, rules: seq<Rule>, r: nat, key: string, before: seq<BackendRef>,
                      refs: seq<BackendRef>)
    requires r < |rules| && CollectedFrom(namespace, rules[..r], key, before)
    requires Holds(namespace, rules[r], key) ==>
               forall policy: set<string> :: key in policy ==>
                 (Strays(namespace, refs, policy) <==>
                   Strays(namespace, before, policy) || Strays(namespace, rules[r], policy))
    requires !Holds(namespace, rules[r], key) ==> refs == before
    ensures CollectedFrom(namespace, rules[..r + 1], key, refs)
  {
    hide Holds, Strays;
    assert rules[..r + 1] == rules[..r] + [rules[r]];
    assert forall rule :: rule in rules[..r + 1] <==> rule in rules[..r] || rule == rules[r];
    forall policy: set<string> | key in policy
      ensures SomeRuleConflicts(namespace, rules[..r + 1], policy, key) <==>
                SomeRuleConflicts(namespace, rules[..r], policy, key) || RuleConflicts(namespace, rules[r], policy, key)
    {
      assert rules[r] in rules[..r + 1];
    }
  }

  /** httpRouteHasUpstreamPolicyConflictedBackendRefsWithService */
  method RouteConflicts(route: HTTPRoute, policy: set<string>, key: string) returns (r: bool)
    requires key in policy
    ensures r <==> SomeRuleConflicts(route.namespace, route.rules, policy, key)
  {
    var refs := BackendRefsUsedWith(route, key);
    r := false;
    for i := 0 to |refs|
      invariant !Strays(route.namespace, refs[..i], policy)
    {
      var serviceRef := BackendRefToServiceRef(route.namespace, refs[i]);
      assert refs[..i + 1] == refs[..i] + [refs[i]];
      assert IsSupported(refs[i]) <==> serviceRef != "";
      if serviceRef != "" && serviceRef !in policy {
        assert refs[i] in refs;
        return true;
      }
    }
    assert refs[..|refs|] == refs;
  }

  /** getConflictedServices; None when listing the routes of some service failed. */
  method GetConflictedServices(services: seq<NamespacedName>, routes: seq<HTTPRoute>, httpRouteEnabled: bool,
                               listFails: string -> bool) returns (conflicted: Option<set<string>>)
    ensures !httpRouteEnabled ==> conflicted == Some({})
    ensures httpRouteEnabled ==> (conflicted.None? <==> exists key :: key in Keys(services) && listFails(key))
    ensures httpRouteEnabled && conflicted.Some? ==>
              forall key :: key in conflicted.value <==> key in Keys(services) && Conflicts(routes, Keys(services), key)
    ensures httpRouteEnabled && conflicted.Some? ==>
              forall route, rule :: route in routes && rule in route.rules ==>
                MarkedTogether(conflicted.value, Keys(services), route.namespace, rule)
  {
    if !httpRouteEnabled {
      return Some({});
    }
    var policy := PolicyServices(services);
    var result, rest := {}, policy;
    while rest != {}
      invariant rest <= policy
      invariant forall key :: key in policy - rest ==> !listFails(key)
      invariant forall key :: key in result <==> key in policy - rest && Conflicts(routes, policy, key)
      decreases rest
    {
      var key :| key in rest;
      if listFails(key) {
        return None;
      }
      var found := ListRoutes(routes, key);
      var hasConflict := AnyConflicts(found, policy, key);
      KeyNotEmpty(services, key);
      IndexFindsAll(routes, found, policy, key);
      if hasConflict {
        result := result + {key};
      }
      rest := rest - {key};
    }
    forall route, rule | route in routes && rule in route.rules
      ensures MarkedTogether(result, policy, route.namespace, rule)
    {
      hide Holds, Strays;
      assert forall key :: RuleConflicts(route.namespace, rule, policy, key) ==> Conflicts(routes, policy, key);
    }
    return Some(result);
  }

  ghost function Keys(services: seq<NamespacedName>): set<string> {
    set s | s in services :: BuildServiceReference(s)
  }

  method PolicyServices(services: seq<NamespacedName>) returns (policy: set<string>)
    ensures policy == Keys(services)
  {
    policy := {};
    for i := 0 to |services|
      invariant policy == Keys(services[..i])
    {
      policy := policy + {BuildServiceReference(services[i])};
      assert services[..i + 1] == services[..i] + [services[i]];
    }
    assert services[..|services|] == services;
  }

  method AnyConflicts(found: seq<HTTPRoute>, policy: set<string>, key: string) returns (r: bool)
    requires key in policy
    ensures r <==> Conflicts(found, policy, key)
  {
    for i := 0 to |found|
      invariant !Conflicts(found[..i], policy, key)
    {
      r := RouteConflicts(found[i], policy, key);
      assert found[..i + 1] == found[..i] + [found[i]];
      if r {
        assert found[i] in found;
        return;
      }
    }
    assert found[..|found|] == found;
    r := false;
  }

  lemma KeyNotEmpty(services: seq<NamespacedName>, key: string)
    requires key in Keys(services)
    ensures key != ""
  {
    var s :| s in services && BuildServiceReference(s) == key;
    assert |BuildServiceReference(s)| > 0;
  }

  /** A route the index leaves out cannot bring a conflict. */
  lemma IndexFindsAll(routes: seq<HTTPRoute>, found: seq<HTTPRoute>, policy: set<string>, key: string)
    requires forall route :: route in found <==> route in routes && key != "" && RouteHolds(route, key)
    requires key != ""
    ensures Conflicts(found, policy, key) <==> Conflicts(routes, policy, key)
  {
    hide Holds, Strays;
    if Conflicts(routes, policy, key) {
      var route, rule :| route in routes && rule in route.rules && RuleConflicts(route.namespace, rule, policy, key);
      assert RouteHolds(route, key);
      assert route in found;
    }
  }

  // ---------------------------------------------------------------- what the set means

  /** No Service conflicts exactly when every rule's supported backends are all inside the policy's
      services or all outside them. */
  lemma AllOrNothing(services: seq<NamespacedName>, routes: seq<HTTPRoute>)
    ensures (forall key :: key in Keys(services) ==> !Conflicts(routes, Keys(services), key)) <==>
              forall route, rule :: route in routes && rule in route.rules ==>
                Uniform(route.namespace, rule, Keys(services))
  {
    var policy := Keys(services);
    if forall key :: key in policy ==> !Conflicts(routes, policy, key) {
      forall route, rule | route in routes && rule in route.rules ensures Uniform(route.namespace, rule, policy) {
        forall a, b | a in rule && b in rule && IsSupported(a) && IsSupported(b)
          && BackendRefToServiceRef(route.namespace, a) in policy
          ensures BackendRefToServiceRef(route.namespace, b) in policy
        {
          assert Holds(route.namespace, rule, BackendRefToServiceRef(route.namespace, a));
          assert RuleConflicts(route.namespace, rule, policy, BackendRefToServiceRef(route.namespace, a))
                   || !Strays(route.namespace, rule, policy);
        }
      }
    }
    if forall route, rule :: route in routes && rule in route.rules ==> Uniform(route.namespace, rule, policy) {
      forall key | key in policy ensures !Conflicts(routes, policy, key) {
        KeyNotEmpty(services, key);
      }
    }
  }

  ghost predicate Uniform(namespace: string, rule: Rule, policy: set<string>) {
    forall a, b :: a in rule && b in rule && IsSupported(a) && IsSupported(b) ==>
      BackendRefToServiceRef(namespace, a) in policy ==> BackendRefToServiceRef(namespace, b) in policy
  }

  /** All policy services of a rule with a stray backend are marked. */
  ghost predicate MarkedTogether(conflicted: set<string>, policy: set<string>, namespace: string, rule: Rule) {
    Strays(namespace, rule, policy) ==> forall key :: key in policy && Holds(namespace, rule, key) ==> key in conflicted
  }

  // ---------------------------------------------------------------- in terms of Services

  /** The backend is the Service: its group is absent, empty or "core", its kind absent or "Service",
      and an absent namespace is that of the route. */
  predicate Means(namespace: string, br: BackendRef, s: NamespacedName) {
    && br.group in {None, Some(""), Some("core")} && br.kind in {None, Some("Service")} && br.name == s.name
    && (br.namespace == Some(s.namespace) || (br.namespace == None && namespace == s.namespace))
  }

  lemma SupportedMeans(namespace: string, br: BackendRef, s: NamespacedName)
    ensures Means(namespace, br, s) <==> IsSupported(br) && ResolvedName(namespace, br) == s
  {
  }

  /** The rule refers to the Service. */
  ghost predicate RefersTo(namespace: string, rule: Rule, s: NamespacedName) {
    exists br :: br in rule && Means(namespace, br, s)
  }

  ghost predicate PlainRule(namespace: string, rule: Rule) {
    forall br :: br in rule ==> '/' !in ResolvedName(namespace, br).namespace
  }

  ghost predicate Plain(routes: seq<HTTPRoute>) {
    forall route, rule :: route in routes && rule in route.rules ==> PlainRule(route.namespace, rule)
  }

  ghost predicate ServiceConflicts(routes: seq<HTTPRoute>, services: seq<NamespacedName>, s: NamespacedName) {
    exists route, rule, other :: route in routes && rule in route.rules && RefersTo(route.namespace, rule, s)
                                 && other !in services && RefersTo(route.namespace, rule, other)
  }

  /** Without "/" in namespaces, the keys decide about the Services themselves: one conflicts
      exactly when some rule refers to it and to a Service that does not use the policy. */
  lemma ConflictsMeaning(routes: seq<HTTPRoute>, services: seq<NamespacedName>, s: NamespacedName)
    requires Plain(routes) && s in services && forall t :: t in services ==> '/' !in t.namespace
    ensures Conflicts(routes, Keys(services), BuildServiceReference(s)) <==> ServiceConflicts(routes, services, s)
  {
    hide Holds, Strays, RefersTo, Keys;
    var policy, key := Keys(services), BuildServiceReference(s);
    forall route, rule | route in routes && rule in route.rules
      ensures Holds(route.namespace, rule, key) <==> RefersTo(route.namespace, rule, s)
      ensures Strays(route.namespace, rule, policy) <==>
                exists other :: other !in services && RefersTo(route.namespace, rule, other)
    {
      HoldsMeaning(route.namespace, rule, s);
      StraysMeaning(route.namespace, rule, services);
    }
  }

  lemma HoldsMeaning(namespace: string, rule: Rule, s: NamespacedName)
    requires '/' !in s.namespace && PlainRule(namespace, rule)
    ensures Holds(namespace, rule, BuildServiceReference(s)) <==> RefersTo(namespace, rule, s)
  {
    forall br | br in rule
      ensures BackendRefToServiceRef(namespace, br) == BuildServiceReference(s) <==> Means(namespace, br, s)
    {
      SupportedMeans(namespace, br, s);
      ServiceKeyInjective(s, ResolvedName(namespace, br));
    }
  }

  lemma StraysMeaning(namespace: string, rule: Rule, services: seq<NamespacedName>)
    requires forall t :: t in services ==> '/' !in t.namespace
    requires PlainRule(namespace, rule)
    ensures Strays(namespace, rule, Keys(services)) <==>
              exists other :: other !in services && RefersTo(namespace, rule, other)
  {
    forall br | br in rule && IsSupported(br)
      ensures BackendRefToServiceRef(namespace, br) in Keys(services) <==> ResolvedName(namespace, br) in services
    {
      forall t | t in services
        ensures BuildServiceReference(t) == BuildServiceReference(ResolvedName(namespace, br)) ==>
                  t == ResolvedName(namespace, br)
      {
        ServiceKeyInjective(t, ResolvedName(namespace, br));
      }
    }
    if Strays(namespace, rule, Keys(services)) {
      var br :| br in rule && IsSupported(br) && BackendRefToServiceRef(namespace, br) !in Keys(services);
      SupportedMeans(namespace, br, ResolvedName(namespace, br));
      assert RefersTo(namespace, rule, ResolvedName(namespace, br));
    }
    if other :| other !in services && RefersTo(namespace, rule, other) {
      var br :| br in rule && Means(namespace, br, other);
      SupportedMeans(namespace, br, other);
    }
  }
}
