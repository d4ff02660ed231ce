/**
 ReferenceGrants: which references across namespaces are permitted. The translator asks a map from
 namespaces to permitted targets; the Gateway's listener status walks the grants itself.
 */
module ReferenceGrants {
  import opened Common

  const V1_GROUP := "gateway.networking.k8s.io"

  datatype From = From(group: string, kind: string, namespace: string)

  datatype To = To(group: string, kind: string, name: Option<string>)

  datatype ReferenceGrant = ReferenceGrant(namespace: string, froms: seq<From>, tos: seq<To>)

  /** The kinds of reference the translator checks. */
  datatype Ref =
    | BackendRef(namespace: Option<string>, name: string, group: Option<string>, kind: Option<string>)
    | SecretObjectReference(namespace: Option<string>, name: string, group: Option<string>, kind: Option<string>)
    | PluginLabelReference(namespace: Option<string>, name: string)

  /** Panic: a missing group or kind is dereferenced. */
  datatype Answer = Permitted | Refused | Panic

  predicate ToMatches(to: To, group: string, kind: string, name: string) {
    to.group == group && to.kind == kind && (to.name.None? || to.name.value == name)
  }

  /** What the Gateway API asks for: a grant in the target's namespace names the source and the target. */
  ghost predicate Granted(grants: seq<ReferenceGrant>, from: From, namespace: string, group: string, kind: string,
                          name: string) {
    exists grant, to :: grant in grants && grant.namespace == namespace && from in grant.froms && to in grant.tos
      && ToMatches(to, group, kind, name)
  }

  // ---------------------------------------------------------------- the namespace-indexed check

  /** The To is permitted in the namespace for sources equal to from. */
  ghost predicate Listed(grants: seq<ReferenceGrant>, from: From, namespace: string, to: To) {
    exists grant :: grant in grants && grant.namespace == namespace && from in grant.froms && to in grant.tos
  }

  predicate Has(allowed: map<string, seq<To>>, namespace: string, to: To) {
    namespace in allowed && to in allowed[namespace]
  }

  ghost predicate Named(grants: seq<ReferenceGrant>, from: From, namespace: string) {
    exists grant :: grant in grants && grant.namespace == namespace && from in grant.froms
  }

  /** The map holds what the grants permit to the source, and only that; its keys are the namespaces
      with a grant for the source. */
  ghost predicate Permits(allowed: map<string, seq<To>>, grants: seq<ReferenceGrant>, from: From) {
    && (forall ns :: ns in allowed <==> Named(grants, from, ns))
    && (forall ns, to :: Has(allowed, ns, to) <==> Listed(grants, from, ns, to))
  }

  method GetPermittedForReferenceGrantFrom(from: From, grants: seq<ReferenceGrant>)
    returns (allowed: map<string, seq<To>>)
    ensures Permits(allowed, grants, from)
  {
    allowed := map[];
    for g := 0 to |grants|
      invariant Permits(allowed, grants[..g], from)
    {
      var grant := grants[g];
      ghost var before := allowed;
      NothingExtended(before, grant);
      for f := 0 to |grant.froms|
        invariant Extended(before, allowed, grant, from in grant.froms[..f])
      {
        hide Permits, Extended;
        assert grant.froms[..f + 1] == grant.froms[..f] + [grant.froms[f]];
        if grant.froms[f] == from {
          var present := if grant.namespace in allowed then allowed[grant.namespace] else [];
          AppendExtends(before, allowed, grant, from in grant.froms[..f], present);
          allowed := allowed[grant.namespace := present + grant.tos];
        }
      }
      hide Permits, Extended;
      assert grant.froms[..|grant.froms|] == grant.froms;
      assert grants[..g + 1] == grants[..g] + [grant];
      PermitsSnoc(grants[..g], grant, from, before, allowed);
    }
    assert grants[..|grants|] == grants;
  }

  /** One grant's Tos were added to its namespace, any number of times, or not at all. */
  ghost predicate Extended(before: map<string, seq<To>>, after: map<string, seq<To>>, grant: ReferenceGrant,
                           added: bool) {
    && after.Keys == before.Keys + (if added then {grant.namespace} else {})
    && forall ns, to :: Has(after, ns, to) <==>
          Has(before, ns, to) || (added && ns == grant.namespace && to in grant.tos)
  }

  lemma AppendExtends(before: map<string, seq<To>>, mid: map<string, seq<To>>, grant: ReferenceGrant, added: bool,
                      present: seq<To>)
    requires Extended(before, mid, grant, added)
    requires present == (if grant.namespace in mid then mid[grant.namespace] else [])
    ensures Extended(before, mid[grant.namespace := present + grant.tos], grant, true)
  {
    var after := mid[grant.namespace := present + grant.tos];
    forall ns, to ensures Has(after, ns, to) <==> Has(mid, ns, to) || (ns == grant.namespace && to in grant.tos) {
    }
    hide Has;
  }

  lemma NothingExtended(before: map<string, seq<To>>, grant: ReferenceGrant)
    ensures Extended(before, before, grant, false)
  {
  }

  lemma PermitsSnoc(grants: seq<ReferenceGrant>, grant: ReferenceGrant, from: From, before: map<string, seq<To>>,
                    after: map<string, seq<To>>)
    requires Permits(before, grants, from) && Extended(before, after, grant, from in grant.froms)
    ensures Permits(after, grants + [grant], from)
  {
    assert forall g :: g in grants + [grant] <==> g in grants || g == grant;
    forall ns
      ensures Named(grants + [grant], from, ns) <==>
                Named(grants, from, ns) || (ns == grant.namespace && from in grant.froms)
    {
      assert grant in grants + [grant];
    }
    forall ns, to ensures Listed(grants + [grant], from, ns, to) <==>
                            Listed(grants, from, ns, to)
                              || (ns == grant.namespace && from in grant.froms && to in grant.tos)
    {
      assert grant in grants + [grant];
    }
    hide Named, Listed, Has;
    assert forall ns :: ns in after <==> ns in after.Keys;
    assert forall ns :: ns in before <==> ns in before.Keys;
  }

  /** isRefAllowedByGrant, over the map built for a source: the direct definition. */
  method IsRefAllowed(namespace: Option<string>, name: string, group: string, kind: string,
                      allowed: map<string, seq<To>>,
                      ghost grants: seq<ReferenceGrant>, ghost from: From) returns (r: bool)
    requires Permits(allowed, grants, from)
    ensures r <==> namespace.None? || Granted(grants, from, namespace.value, group, kind, name)
  {
    if namespace.None? {
      return true;
    }
    var tos := if namespace.value in allowed then allowed[namespace.value] else [];
    GrantedIsListed(grants, from, namespace.value, group, kind, name);
    assert forall to :: to in tos <==> Has(allowed, namespace.value, to);
    assert forall to :: to in tos <==> Listed(grants, from, namespace.value, to);
    for i := 0 to |tos|
      invariant forall j :: 0 <= j < i ==> !ToMatches(tos[j], group, kind, name)
    {
      var to := tos[i];
      if to.group == group && to.kind == kind {
        if to.name.Some? {
          if to.name.value == name {
            assert to in tos && ToMatches(to, group, kind, name);
            return true;
          }
        } else {
          assert to in tos && ToMatches(to, group, kind, name);
          return true;
        }
      }
    }
    return false;
  }

  lemma GrantedIsListed(grants: seq<ReferenceGrant>, from: From, namespace: string, group: string, kind: string,
                        name: string)
    ensures Granted(grants, from, namespace, group, kind, name) <==>
              exists to :: Listed(grants, from, namespace, to) && ToMatches(to, group, kind, name)
  {
  }

  /** What IsRefAllowedByGrant answers, said without the map. A Secret reference into the Gateway's
      own namespace has no shortcut and needs a grant, unlike a backend reference. */
  ghost function Answered(grants: seq<ReferenceGrant>, from: From, targetNamespace: string, ref: Ref): Answer {
    if ref.namespace.None? || (ref.BackendRef? && ref.namespace.value == targetNamespace) then Permitted
    else if !ref.PluginLabelReference? && (ref.group.None? || ref.kind.None?) then Panic
    else
      var group := if ref.PluginLabelReference? then "configuration.konghq.com" else ref.group.value;
      var kind := if ref.PluginLabelReference? then "KongPlugin" else ref.kind.value;
      if Granted(grants, from, ref.namespace.value, group, kind, ref.name) then Permitted else Refused
  }

  /** A grant in the namespace names the source and a target of the group and kind, of any or this name. */
  ghost predicate SomeGrant(grants: seq<ReferenceGrant>, from: From, namespace: string, group: string, kind: string,
                            name: string) {
    exists i, j :: && 0 <= i < |grants| && grants[i].namespace == namespace && from in grants[i].froms
                   && 0 <= j < |grants[i].tos|
                   && grants[i].tos[j] in {To(group, kind, None), To(group, kind, Some(name))}
  }

  lemma GrantedMeans(grants: seq<ReferenceGrant>, from: From, namespace: string, group: string, kind: string,
                     name: string)
    ensures Granted(grants, from, namespace, group, kind, name) <==>
              SomeGrant(grants, from, namespace, group, kind, name)
  {
    if Granted(grants, from, namespace, group, kind, name) {
      var grant, to :| grant in grants && grant.namespace == namespace && from in grant.froms && to in grant.tos
        && ToMatches(to, group, kind, name);
      var i :| 0 <= i < |grants| && grants[i] == grant;
      var j :| 0 <= j < |grant.tos| && grant.tos[j] == to;
      assert to == To(group, kind, if to.name.None? then None else Some(name));
      assert grants[i].tos[j] == to;
    }
    if SomeGrant(grants, from, namespace, group, kind, name) {
      var i, j :| && 0 <= i < |grants| && grants[i].namespace == namespace && from in grants[i].froms
                  && 0 <= j < |grants[i].tos|
                  && grants[i].tos[j] in {To(group, kind, None), To(group, kind, Some(name))};
      assert grants[i] in grants && grants[i].tos[j] in grants[i].tos && ToMatches(grants[i].tos[j], group, kind, name);
    }
  }

  /** A backend reference: permitted if local, said or unsaid, or granted. */
  lemma BackendAnswer(grants: seq<ReferenceGrant>, from: From, route: string, namespace: Option<string>, name: string,
                      group: string, kind: string)
    ensures Answered(grants, from, route, BackendRef(namespace, name, Some(group), Some(kind))) ==
            if namespace in {None, Some(route)} || SomeGrant(grants, from, namespace.value, group, kind, name)
              then Permitted else Refused
  {
    if namespace.Some? {
      GrantedMeans(grants, from, namespace.value, group, kind, name);
    }
  }

  /** A plugin reference: permitted without a namespace or with a grant for KongPlugins. */
  lemma PluginAnswer(grants: seq<ReferenceGrant>, from: From, target: string, namespace: Option<string>, name: string)
    ensures Answered(grants, from, target, PluginLabelReference(namespace, name)) ==
            if namespace == None
              || SomeGrant(grants, from, namespace.value, "configuration.konghq.com", "KongPlugin", name)
            then Permitted else Refused
  {
    if namespace.Some? {
      GrantedMeans(grants, from, namespace.value, "configuration.konghq.com", "KongPlugin", name);
    }
  }

  /** A Secret reference: even into the own namespace it needs a grant once the namespace is given. */
  lemma SecretAnswer(grants: seq<ReferenceGrant>, from: From, target: string, namespace: Option<string>, name: string,
                     group: string, kind: string)
    ensures Answered(grants, from, target, SecretObjectReference(namespace, name, Some(group), Some(kind))) ==
            if namespace == None || SomeGrant(grants, from, namespace.value, group, kind, name) then Permitted
              else Refused
  {
    if namespace.Some? {
      GrantedMeans(grants, from, namespace.value, group, kind, name);
    }
  }

  /** GetPermittedForReferenceGrantFrom followed by RefChecker.IsRefAllowedByGrant. */
  method IsRefAllowedByGrant(grants: seq<ReferenceGrant>, from: From, targetNamespace: string, ref: Ref)
    returns (answer: Answer)
    ensures answer == Answered(grants, from, targetNamespace, ref)
  {
    var allowed := GetPermittedForReferenceGrantFrom(from, grants);
    hide Granted, Permits;
    var r: bool;
    match ref {
      case BackendRef(namespace, name, group, kind) =>
        if namespace.None? || targetNamespace == namespace.value {
          return Permitted;
        }
        if group.None? || kind.None? {
          return Panic;
        }
        r := IsRefAllowed(namespace, name, group.value, kind.value, allowed, grants, from);
      case SecretObjectReference(namespace, name, group, kind) =>
        if namespace.None? {
          return Permitted;
        }
        if group.None? || kind.None? {
          return Panic;
        }
        r := IsRefAllowed(namespace, name, group.value, kind.value, allowed, grants, from);
      case PluginLabelReference(namespace, name) =>
        if namespace.None? {
          return Permitted;
        }
        r := IsRefAllowed(namespace, name, "configuration.konghq.com", "KongPlugin", allowed, grants, from);
    }
    return if r then Permitted else Refused;
  }

  // ---------------------------------------------------------------- the listener's check

  datatype ConditionReason = ResolvedRefs | RefNotPermitted

  predicate SecretTo(to: To, name: string) {
    to.group in {"", "core"} && to.kind == "Secret" && (to.name.None? || to.name.value == name)
  }

  function GatewayFrom(gatewayNamespace: string): From {
    From(V1_GROUP, "Gateway", gatewayNamespace)
  }

  ghost predicate GrantsSecret(grant: ReferenceGrant, gatewayNamespace: string, namespace: string, name: string) {
    && grant.namespace == namespace && GatewayFrom(gatewayNamespace) in grant.froms
    && exists to :: to in grant.tos && SecretTo(to, name)
  }

  /** getReferenceGrantConditionReason: the two spellings of the core group are the same to it. */
  method GetReferenceGrantConditionReason(gatewayNamespace: string, certNamespace: Option<string>, certName: string,
                                          grants: seq<ReferenceGrant>) returns (reason: ConditionReason)
    ensures reason == ResolvedRefs <==> SecretResolved(grants, gatewayNamespace, certNamespace, certName)
  {
    if certNamespace.None? || certNamespace.value == gatewayNamespace {
      return ResolvedRefs;
    }
    var namespace := certNamespace.value;
    for g := 0 to |grants|
      invariant forall i :: 0 <= i < g ==> !GrantsSecret(grants[i], gatewayNamespace, namespace, certName)
    {
      var grant := grants[g];
      if grant.namespace != namespace {
        continue;
      }
      for f := 0 to |grant.froms|
        invariant (exists to :: to in grant.tos && SecretTo(to, certName)) ==>
                    GatewayFrom(gatewayNamespace) !in grant.froms[..f]
      {
        var from := grant.froms[f];
        assert grant.froms[..f + 1] == grant.froms[..f] + [from];
        if from.group != V1_GROUP || from.kind != "Gateway" {
          continue;
        }
        if from.namespace == gatewayNamespace {
          for t := 0 to |grant.tos|
            invariant forall i :: 0 <= i < t ==> !SecretTo(grant.tos[i], certName)
          {
            var to := grant.tos[t];
            if (to.group != "" && to.group != "core") || to.kind != "Secret" {
              continue;
            }
            if to.name.None? || to.name.value == certName {
              assert from == GatewayFrom(gatewayNamespace) && from in grant.froms && to in grant.tos
                       && SecretTo(to, certName);
              assert GrantsSecret(grant, gatewayNamespace, namespace, certName) && grant in grants;
              return ResolvedRefs;
            }
          }
        }
      }
      assert grant.froms[..|grant.froms|] == grant.froms;
    }
    return RefNotPermitted;
  }

  /** Local, or granted by some grant. */
  ghost predicate SecretResolved(grants: seq<ReferenceGrant>, gatewayNamespace: string, namespace: Option<string>,
                                 name: string) {
    || namespace.None? || namespace.value == gatewayNamespace
    || exists grant :: grant in grants && GrantsSecret(grant, gatewayNamespace, namespace.value, name)
  }

  /** In the terms of the other check: granted under either spelling of the core group. */
  lemma ListenerCheckMeans(grants: seq<ReferenceGrant>, gatewayNamespace: string, namespace: string, name: string)
    ensures (exists grant :: grant in grants && GrantsSecret(grant, gatewayNamespace, namespace, name)) <==>
              || Granted(grants, GatewayFrom(gatewayNamespace), namespace, "", "Secret", name)
              || Granted(grants, GatewayFrom(gatewayNamespace), namespace, "core", "Secret", name)
  {
    assert forall to :: SecretTo(to, name) <==>
             ToMatches(to, "", "Secret", name) || ToMatches(to, "core", "Secret", name);
    if exists grant :: grant in grants && GrantsSecret(grant, gatewayNamespace, namespace, name) {
      var grant :| grant in grants && GrantsSecret(grant, gatewayNamespace, namespace, name);
      var to :| to in grant.tos && SecretTo(to, name);
      assert ToMatches(to, "", "Secret", name) || ToMatches(to, "core", "Secret", name);
    }
    forall group | group in {"", "core"}
      && Granted(grants, GatewayFrom(gatewayNamespace), namespace, group, "Secret", name)
      ensures exists grant :: grant in grants && GrantsSecret(grant, gatewayNamespace, namespace, name)
    {
      var grant, to :| grant in grants && grant.namespace == namespace
        && GatewayFrom(gatewayNamespace) in grant.froms && to in grant.tos
                       && ToMatches(to, group, "Secret", name);
      assert SecretTo(to, name);
    }
  }

  /** With the names spelled out: resolved exactly if local, or some grant lets Gateways of the
      namespace refer to the Secret. */
  lemma SecretResolvedMeans(grants: seq<ReferenceGrant>, gatewayNamespace: string, namespace: Option<string>,
                            name: string)
    ensures var from := From("gateway.networking.k8s.io", "Gateway", gatewayNamespace);
            SecretResolved(grants, gatewayNamespace, namespace, name) <==>
              || namespace in {None, Some(gatewayNamespace)}
              || SomeGrant(grants, from, namespace.value, "", "Secret", name)
              || SomeGrant(grants, from, namespace.value, "core", "Secret", name)
  {
    if namespace.Some? {
      var from := From("gateway.networking.k8s.io", "Gateway", gatewayNamespace);
      ListenerCheckMeans(grants, gatewayNamespace, namespace.value, name);
      GrantedMeans(grants, from, namespace.value, "", "Secret", name);
      GrantedMeans(grants, from, namespace.value, "core", "Secret", name);
      hide Granted, SomeGrant, GrantsSecret;
    }
  }

  // ---------------------------------------------------------------- the two checks together

  /** Whatever Secret reference the translator admits, the listener status reports as resolved. */
  lemma AdmittedIsResolved(grants: seq<ReferenceGrant>, gatewayNamespace: string, ref: Ref)
    requires ref.SecretObjectReference? && ref.group in {Some(""), Some("core")} && ref.kind == Some("Secret")
    ensures Answered(grants, GatewayFrom(gatewayNamespace), gatewayNamespace, ref) == Permitted ==>
              SecretResolved(grants, gatewayNamespace, ref.namespace, ref.name)
  {
    if ref.namespace.Some? {
      ListenerCheckMeans(grants, gatewayNamespace, ref.namespace.value, ref.name);
    }
  }

  /** The converse fails exactly in two ways: a reference that spells out the Gateway's own namespace
      without a grant, and a grant that spells the core group the other way than the reference. */
  lemma ResolvedNotAdmitted(grants: seq<ReferenceGrant>, gatewayNamespace: string, ref: Ref, otherSpelling: string)
    requires ref.SecretObjectReference? && ref.group in {Some(""), Some("core")} && ref.kind == Some("Secret")
    requires otherSpelling == (if ref.group == Some("") then "core" else "")
    ensures var from := GatewayFrom(gatewayNamespace);
            SecretResolved(grants, gatewayNamespace, ref.namespace, ref.name)
            && Answered(grants, from, gatewayNamespace, ref) == Refused <==>
              && ref.namespace.Some?
              && !Granted(grants, from, ref.namespace.value, ref.group.value, "Secret", ref.name)
              && (|| ref.namespace.value == gatewayNamespace
                  || Granted(grants, from, ref.namespace.value, otherSpelling, "Secret", ref.name))
  {
    if ref.namespace.Some? {
      ListenerCheckMeans(grants, gatewayNamespace, ref.namespace.value, ref.name);
    }
  }

  /** Both ways occur. */
  lemma ChecksDisagree()
    ensures var ref := SecretObjectReference(Some("prod"), "cert", Some(""), Some("Secret"));
            SecretResolved([], "prod", ref.namespace, ref.name)
              && Answered([], GatewayFrom("prod"), "prod", ref) == Refused
    ensures var ref := SecretObjectReference(Some("certs"), "cert", Some(""), Some("Secret"));
            var grants := [ReferenceGrant("certs", [GatewayFrom("prod")], [To("core", "Secret", None)])];
            SecretResolved(grants, "prod", ref.namespace, ref.name)
              && Answered(grants, GatewayFrom("prod"), "prod", ref) == Refused
  {
    var grant := ReferenceGrant("certs", [GatewayFrom("prod")], [To("core", "Secret", None)]);
    var to := To("core", "Secret", None);
    ListenerCheckMeans([grant], "prod", "certs", "cert");
    assert grant in [grant] && GatewayFrom("prod") in grant.froms && to in grant.tos
             && ToMatches(to, "core", "Secret", "cert");
  }
}
