/**
 Gateway listener status: a first pass compares every listener only with the first occupant of its
 port and with the hostnames recorded for the port so far; a second pass spreads each conflict to
 all listeners that share the conflicted port or hostname. The result decides the pairwise
 compatibility rule of the Gateway API, which does not mention the order of the listeners.
 */
module ListenerConflicts {
  import opened Common

  datatype Protocol = HTTP | HTTPS | TLS | TCP | UDP | Other(name: string)

  datatype Reason =
    | Accepted | HostnameConflict | Invalid | InvalidCertificateRef | InvalidRouteKinds | NoConflicts
    | PortUnavailable | Programmed | ProtocolConflict | RefNotPermitted | ResolvedRefs | UnsupportedProtocol

  datatype ConditionType = TypeAccepted | TypeConflicted | TypeProgrammed | TypeResolvedRefs

  datatype Condition = Condition(kind: ConditionType, status: bool, reason: Reason)

  /** A listener spec; refs is the outcome of resolving its route kinds and certificates. */
  datatype Listener = Listener(name: string, port: int, protocol: Protocol, hostname: Option<string>, refs: Reason)

  datatype KongListen = KongListen(protocol: Protocol, port: int)

  function Host(l: Listener): string {
    l.hostname.GetOr("")
  }

  predicate UniqueNames(ls: seq<Listener>) {
    forall i, j :: 0 <= i < j < |ls| ==> ls[i].name != ls[j].name
  }

  // ---------------------------------------------------------------- the compatibility rule

  /** canSharePort */
  predicate CanSharePort(requested: Protocol, existing: Protocol) {
    match requested
    case TCP => false
    case UDP => false
    case HTTPS => existing == HTTPS || existing == TLS
    case TLS => existing == HTTPS || existing == TLS
    case HTTP => existing == HTTP
    case Other(_) => false
  }

  /** Two listeners on the port need different ports. */
  predicate ProtocolConflictOn(ls: seq<Listener>, port: int) {
    exists i, j :: 0 <= i < j < |ls| && ls[i].port == port && ls[j].port == port
      && !CanSharePort(ls[i].protocol, ls[j].protocol)
  }

  predicate HostnameTaken(ls: seq<Listener>, port: int, host: string) {
    exists i :: 0 <= i < |ls| && ls[i].port == port && Host(ls[i]) == host
  }

  predicate HostnameTwice(ls: seq<Listener>, port: int, host: string) {
    exists i, j :: 0 <= i < j < |ls| && ls[i].port == port && ls[j].port == port && Host(ls[i]) == host
      && Host(ls[j]) == host
  }

  predicate SharesHostname(ls: seq<Listener>, i: nat)
    requires i < |ls|
  {
    exists j :: 0 <= j < |ls| && j != i && ls[j].port == ls[i].port && Host(ls[j]) == Host(ls[i])
  }

  /** The reason listener i conflicts, by the pairwise rule. */
  function ConflictReason(ls: seq<Listener>, i: nat): Option<Reason>
    requires i < |ls|
  {
    if ProtocolConflictOn(ls, ls[i].port) then Some(ProtocolConflict)
    else if SharesHostname(ls, i) then Some(HostnameConflict)
    else None
  }

  /** Kong listens for the protocol on the port. */
  predicate KongListens(kong: seq<KongListen>, l: Listener) {
    KongListen(l.protocol, l.port) in kong
  }

  // ---------------------------------------------------------------- first pass

  /** The four lookup maps of the first pass; a map from port to hostnames is a set of pairs. */
  datatype Scan = Scan(
    portToProtocol: map<int, Protocol>, portToHostname: set<(int, string)>,
    conflictedPorts: set<int>, conflictedHostnames: set<(int, string)>)

  /** The conflict the first pass sees when it reaches a listener. */
  function Clash(sc: Scan, l: Listener): Option<Reason> {
    if l.port !in sc.portToProtocol then None
    else if !CanSharePort(l.protocol, sc.portToProtocol[l.port]) then Some(ProtocolConflict)
    else if (l.port, Host(l)) in sc.portToHostname then Some(HostnameConflict)
    else None
  }

  function Visit(sc: Scan, l: Listener): Scan {
    if l.port !in sc.portToProtocol then
      sc.(portToProtocol := sc.portToProtocol[l.port := l.protocol],
          portToHostname := sc.portToHostname + {(l.port, Host(l))})
    else match Clash(sc, l)
      case Some(ProtocolConflict) => sc.(conflictedPorts := sc.conflictedPorts + {l.port})
      case Some(_) => sc.(conflictedHostnames := sc.conflictedHostnames + {(l.port, Host(l))})
      case None => sc.(portToHostname := sc.portToHostname + {(l.port, Host(l))})
  }

  function ScanAll(ls: seq<Listener>): Scan {
    if ls == [] then Scan(map[], {}, {}, {})
    else Visit(ScanAll(ls[..|ls| - 1]), ls[|ls| - 1])
  }

  /** What the lookup maps mean once the listeners ls have been visited. */
  ghost predicate ScanMeans(ls: seq<Listener>, sc: Scan) {
    && (forall i :: 0 <= i < |ls| ==> ls[i].port in sc.portToProtocol)
    && (forall p :: p in sc.portToProtocol ==>
          exists i :: 0 <= i < |ls| && ls[i].port == p && ls[i].protocol == sc.portToProtocol[p])
    && (forall p :: p in sc.conflictedPorts <==> ProtocolConflictOn(ls, p))
    && (forall p, h :: p !in sc.conflictedPorts ==> ((p, h) in sc.portToHostname <==> HostnameTaken(ls, p, h)))
    && (forall p, h :: p !in sc.conflictedPorts ==> ((p, h) in sc.conflictedHostnames <==> HostnameTwice(ls, p, h)))
  }

  /** Comparing only with the first occupant of the port decides the pairwise relation. */
  lemma {:induction false} FirstOccupantDecides(ls: seq<Listener>)
    ensures ScanMeans(ls, ScanAll(ls))
  {
    if ls != [] {
      var init, l := ls[..|ls| - 1], ls[|ls| - 1];
      FirstOccupantDecides(init);
      assert ls == init + [l];
      VisitProtocols(init, l, ScanAll(init));
      VisitHostnames(init, l, ScanAll(init));
    }
  }

  lemma VisitProtocols(init: seq<Listener>, l: Listener, sc: Scan)
    requires ScanMeans(init, sc)
    ensures var ls := init + [l]; var sc' := Visit(sc, l);
            && (forall i :: 0 <= i < |ls| ==> ls[i].port in sc'.portToProtocol)
            && (forall p :: p in sc'.portToProtocol ==>
                  exists i :: 0 <= i < |ls| && ls[i].port == p && ls[i].protocol == sc'.portToProtocol[p])
            && (forall p :: p in sc'.conflictedPorts <==> ProtocolConflictOn(ls, p))
  {
    var ls, sc' := init + [l], Visit(sc, l);
    forall p | p in sc'.portToProtocol
      ensures exists i :: 0 <= i < |ls| && ls[i].port == p && ls[i].protocol == sc'.portToProtocol[p]
    {
      if p in sc.portToProtocol {
        var i :| 0 <= i < |init| && init[i].port == p && init[i].protocol == sc.portToProtocol[p];
        assert ls[i] == init[i];
      } else {
        assert ls[|init|] == l;
      }
    }
    forall p ensures p in sc'.conflictedPorts <==> ProtocolConflictOn(ls, p) {
      VisitPort(init, l, sc, p);
    }
  }

  lemma VisitPort(init: seq<Listener>, l: Listener, sc: Scan, p: int)
    requires forall i :: 0 <= i < |init| ==> init[i].port in sc.portToProtocol
    requires p in sc.portToProtocol ==>
               exists i :: 0 <= i < |init| && init[i].port == p && init[i].protocol == sc.portToProtocol[p]
    requires p in sc.conflictedPorts <==> ProtocolConflictOn(init, p)
    ensures p in Visit(sc, l).conflictedPorts <==> ProtocolConflictOn(init + [l], p)
  {
    ProtocolConflictGrows(init, l, p);
    if p == l.port && p in sc.portToProtocol && !ProtocolConflictOn(init, p) {
      var o :| 0 <= o < |init| && init[o].port == p && init[o].protocol == sc.portToProtocol[p];
      forall i | 0 <= i < |init| && init[i].port == p
        ensures CanSharePort(init[i].protocol, l.protocol) <==> CanSharePort(l.protocol, init[o].protocol)
      {
        if i < o {
          assert CanSharePort(init[i].protocol, init[o].protocol);
        } else if o < i {
          assert CanSharePort(init[o].protocol, init[i].protocol);
        }
        ShareGroup(init[i].protocol, init[o].protocol, l.protocol);
      }
    }
  }

  /** Sharing a port is symmetric and transitive, so agreeing with one occupant is agreeing with all. */
  lemma ShareGroup(a: Protocol, b: Protocol, c: Protocol)
    ensures CanSharePort(a, b) <==> CanSharePort(b, a)
    ensures CanSharePort(a, b) && CanSharePort(b, c) ==> CanSharePort(a, c)
  {
  }

  lemma ProtocolConflictGrows(init: seq<Listener>, l: Listener, p: int)
    ensures ProtocolConflictOn(init + [l], p) <==>
              ProtocolConflictOn(init, p)
              || (l.port == p
                  && exists i :: 0 <= i < |init| && init[i].port == p && !CanSharePort(init[i].protocol, l.protocol))
  {
    var ls := init + [l];
    assert ls[|init|] == l;
    if ProtocolConflictOn(init, p) {
      var i, j :| 0 <= i < j < |init| && init[i].port == p && init[j].port == p
        && !CanSharePort(init[i].protocol, init[j].protocol);
      assert ls[i] == init[i] && ls[j] == init[j];
    }
    if l.port == p && exists i :: 0 <= i < |init| && init[i].port == p && !CanSharePort(init[i].protocol, l.protocol) {
      var i :| 0 <= i < |init| && init[i].port == p && !CanSharePort(init[i].protocol, l.protocol);
      assert ls[i] == init[i];
    }
  }

  lemma VisitHostnames(init: seq<Listener>, l: Listener, sc: Scan)
    requires ScanMeans(init, sc)
    ensures var ls := init + [l]; var sc' := Visit(sc, l);
            && (forall p, h :: p !in sc'.conflictedPorts ==>
                  ((p, h) in sc'.portToHostname <==> HostnameTaken(ls, p, h)))
            && (forall p, h :: p !in sc'.conflictedPorts ==>
                  ((p, h) in sc'.conflictedHostnames <==> HostnameTwice(ls, p, h)))
  {
    var ls, sc' := init + [l], Visit(sc, l);
    forall p, h | p !in sc'.conflictedPorts
      ensures (p, h) in sc'.portToHostname <==> HostnameTaken(ls, p, h)
      ensures (p, h) in sc'.conflictedHostnames <==> HostnameTwice(ls, p, h)
    {
      HostnamesGrow(init, l, p, h);
    }
  }

  lemma HostnamesGrow(init: seq<Listener>, l: Listener, p: int, h: string)
    ensures HostnameTaken(init + [l], p, h) <==> HostnameTaken(init, p, h) || (l.port == p && Host(l) == h)
    ensures HostnameTwice(init + [l], p, h) <==>
              HostnameTwice(init, p, h) || (l.port == p && Host(l) == h && HostnameTaken(init, p, h))
  {
    var ls := init + [l];
    assert ls[|init|] == l;
    if HostnameTaken(init, p, h) {
      var i :| 0 <= i < |init| && init[i].port == p && Host(init[i]) == h;
      assert ls[i] == init[i];
    }
    if HostnameTwice(init, p, h) {
      var i, j :| 0 <= i < j < |init| && init[i].port == p && init[j].port == p && Host(init[i]) == h
        && Host(init[j]) == h;
      assert ls[i] == init[i] && ls[j] == init[j];
    }
  }

  // ---------------------------------------------------------------- second pass

  /** The reason the second pass reads off the lookup maps. */
  function SpreadReason(sc: Scan, l: Listener): Option<Reason> {
    if l.port in sc.conflictedPorts then Some(ProtocolConflict)
    else if (l.port, Host(l)) in sc.conflictedHostnames then Some(HostnameConflict)
    else None
  }

  /** After both passes the reason is the pairwise one. */
  lemma SpreadIsPairwise(ls: seq<Listener>, i: nat)
    requires i < |ls|
    ensures SpreadReason(ScanAll(ls), ls[i]) == ConflictReason(ls, i)
  {
    FirstOccupantDecides(ls);
    if HostnameTwice(ls, ls[i].port, Host(ls[i])) {
      var a, b :| 0 <= a < b < |ls| && ls[a].port == ls[i].port && ls[b].port == ls[i].port
        && Host(ls[a]) == Host(ls[i]) && Host(ls[b]) == Host(ls[i]);
      assert a != i || b != i;
    }
    if SharesHostname(ls, i) {
      var j :| 0 <= j < |ls| && j != i && ls[j].port == ls[i].port && Host(ls[j]) == Host(ls[i]);
      assert i < j || j < i;
    }
  }

  /** A conflict the first pass reports at a listener is never forgotten. */
  lemma ClashIsConflict(ls: seq<Listener>, i: nat)
    requires i < |ls| && Clash(ScanAll(ls[..i]), ls[i]).Some?
    ensures ConflictReason(ls, i).Some?
  {
    FirstOccupantDecides(ls[..i]);
    hide ScanAll;
    ClashAgainst(ls[..i], ScanAll(ls[..i]), ls[i]);
    assert forall o :: 0 <= o < i ==> ls[..i][o] == ls[o];
    if o :| 0 <= o < i && ls[..i][o].port == ls[i].port && !CanSharePort(ls[i].protocol, ls[..i][o].protocol) {
      ShareGroup(ls[i].protocol, ls[o].protocol, ls[i].protocol);
    }
  }

  /** What the first pass meets at l is a listener before it, or a port already in conflict. */
  lemma ClashAgainst(before: seq<Listener>, sc: Scan, l: Listener)
    requires ScanMeans(before, sc) && Clash(sc, l).Some?
    ensures || ProtocolConflictOn(before, l.port) || HostnameTaken(before, l.port, Host(l))
            || exists o :: 0 <= o < |before| && before[o].port == l.port
                  && !CanSharePort(l.protocol, before[o].protocol)
  {
  }

  // ---------------------------------------------------------------- conditions

  function KongConditions(kong: map<Protocol, set<int>>, l: Listener): seq<Condition> {
    if l.protocol !in kong || kong[l.protocol] == {} then [Condition(TypeAccepted, false, UnsupportedProtocol)]
    else if l.port !in kong[l.protocol] then [Condition(TypeAccepted, false, PortUnavailable)]
    else []
  }

  predicate Has(cs: seq<Condition>, kind: ConditionType) {
    exists i :: 0 <= i < |cs| && cs[i].kind == kind
  }

  function Count(cs: seq<Condition>, kind: ConditionType): nat {
    if cs == [] then 0 else (if cs[0].kind == kind then 1 else 0) + Count(cs[1..], kind)
  }

  /** Problems found in the first pass, in the order they are appended. */
  function Problems(l: Listener, clash: Option<Reason>, kong: seq<Condition>): seq<Condition> {
    (if l.refs != ResolvedRefs then [Condition(TypeResolvedRefs, false, l.refs)] else [])
    + (if clash.Some? then [Condition(TypeConflicted, true, clash.value)] else [])
    + kong
  }

  function General(problems: seq<Condition>): seq<Condition> {
    if problems == [] then
      [Condition(TypeConflicted, false, NoConflicts)] + [Condition(TypeResolvedRefs, true, ResolvedRefs)]
        + [Condition(TypeProgrammed, true, Programmed)]
    else
      problems + [Condition(TypeProgrammed, false, Invalid)]
  }

  function WithAccepted(cs: seq<Condition>): seq<Condition> {
    if Has(cs, TypeAccepted) then cs else cs + [Condition(TypeAccepted, true, Accepted)]
  }

  /** Conditions after the first pass. */
  function FirstPass(l: Listener, clash: Option<Reason>, kong: map<Protocol, set<int>>): seq<Condition> {
    WithAccepted(General(Problems(l, clash, KongConditions(kong, l))))
  }

  function Strip(cs: seq<Condition>): seq<Condition> {
    if cs == [] then []
    else (if cs[0].kind == TypeProgrammed || cs[0].kind == TypeConflicted then [] else [cs[0]]) + Strip(cs[1..])
  }

  function SecondPass(cs: seq<Condition>, reason: Option<Reason>): seq<Condition> {
    if reason.None? then cs
    else Strip(cs) + [Condition(TypeConflicted, true, reason.value)] + [Condition(TypeProgrammed, false, Invalid)]
  }

  /** The final conditions of listener i, its conflict reason given by the pairwise rule. */
  function Final(ls: seq<Listener>, kong: map<Protocol, set<int>>, i: nat): seq<Condition>
    requires i < |ls|
  {
    SecondPass(FirstPass(ls[i], Clash(ScanAll(ls[..i]), ls[i]), kong), ConflictReason(ls, i))
  }

  ghost predicate PortMapOf(kong: seq<KongListen>, m: map<Protocol, set<int>>) {
    && (forall q, p :: (q in m && p in m[q]) <==> KongListen(q, p) in kong)
    && (forall q :: q in m ==> exists p :: p in m[q])
  }

  /** The port map, by protocol. */
  ghost function PortMap(kong: seq<KongListen>): map<Protocol, set<int>> {
    map q | q in Protocols(kong) :: set k | k in kong && k.protocol == q :: k.port
  }

  ghost function Protocols(kong: seq<KongListen>): set<Protocol> {
    set k | k in kong :: k.protocol
  }

  lemma PortMapUnique(kong: seq<KongListen>, m: map<Protocol, set<int>>)
    ensures PortMapOf(kong, m) <==> m == PortMap(kong)
  {
    var n := PortMap(kong);
    forall q, p ensures (q in n && p in n[q]) <==> KongListen(q, p) in kong {
      if KongListen(q, p) in kong {
        assert KongListen(q, p).protocol == q && KongListen(q, p).port == p;
      }
    }
    assert PortMapOf(kong, n);
    if PortMapOf(kong, m) {
      SamePortMap(kong, m, n);
    }
  }

  lemma SamePortMap(kong: seq<KongListen>, m: map<Protocol, set<int>>, n: map<Protocol, set<int>>)
    requires PortMapOf(kong, m) && PortMapOf(kong, n)
    ensures m == n
  {
    forall q ensures q in m <==> q in n {
      if q in m {
        var p :| p in m[q];
        assert KongListen(q, p) in kong;
      }
      if q in n {
        var p :| p in n[q];
        assert KongListen(q, p) in kong;
      }
    }
    forall q | q in m ensures m[q] == n[q] {
      assert forall p :: p in m[q] <==> KongListen(q, p) in kong;
      forall p ensures p in m[q] <==> p in n[q] {
        assert p in n[q] <==> KongListen(q, p) in kong;
      }
    }
  }

  /** The finished conditions of listener i. */
  ghost function Status(ls: seq<Listener>, kong: seq<KongListen>, i: nat): seq<Condition>
    requires i < |ls|
  {
    Final(ls, PortMap(kong), i)
  }

  /** What every finished condition list says, item by item. */
  ghost predicate StatusMeans(ls: seq<Listener>, kong: seq<KongListen>, i: nat, cs: seq<Condition>)
    requires i < |ls|
  {
    ConditionsMean(ls[i], ConflictReason(ls, i), kong, cs)
  }

  ghost predicate ConditionsMean(l: Listener, conflict: Option<Reason>, kong: seq<KongListen>, cs: seq<Condition>) {
    && Count(cs, TypeProgrammed) == 1 && Count(cs, TypeAccepted) == 1
    && Count(cs, TypeConflicted) <= 1 && Count(cs, TypeResolvedRefs) <= 1
    && (Condition(TypeProgrammed, true, Programmed) in cs <==>
          l.refs == ResolvedRefs && conflict.None? && KongListens(kong, l))
    && (Condition(TypeAccepted, true, Accepted) in cs <==> KongListens(kong, l))
    && (Condition(TypeAccepted, false, UnsupportedProtocol) in cs <==>
          forall k :: k in kong ==> k.protocol != l.protocol)
    && (Condition(TypeAccepted, false, PortUnavailable) in cs <==>
          !KongListens(kong, l) && exists k :: k in kong && k.protocol == l.protocol)
    && (Condition(TypeConflicted, false, NoConflicts) in cs <==> Condition(TypeProgrammed, true, Programmed) in cs)
    && (Condition(TypeProgrammed, false, Invalid) in cs <==> Condition(TypeProgrammed, true, Programmed) !in cs)
    && (forall r :: Condition(TypeConflicted, true, r) in cs <==> conflict == Some(r))
    && (forall r :: Condition(TypeResolvedRefs, false, r) in cs <==> l.refs != ResolvedRefs && r == l.refs)
  }

  /** Exactly one Programmed and one Accepted condition, and each says what the pairwise rule says. */
  lemma FinalMeans(ls: seq<Listener>, kong: seq<KongListen>, m: map<Protocol, set<int>>, i: nat)
    requires i < |ls| && PortMapOf(kong, m)
    ensures StatusMeans(ls, kong, i, Final(ls, m, i))
  {
    hide FirstPass, SecondPass, ConditionsMean, ConflictReason, Clash, PortMapOf;
    if Clash(ScanAll(ls[..i]), ls[i]).Some? {
      ClashIsConflict(ls, i);
    }
    PassesMean(ls[i], Clash(ScanAll(ls[..i]), ls[i]), ConflictReason(ls, i), kong, m);
  }

  lemma PassesMean(l: Listener, clash: Option<Reason>, conflict: Option<Reason>, kong: seq<KongListen>,
                   m: map<Protocol, set<int>>)
    requires PortMapOf(kong, m) && (clash.Some? ==> conflict.Some?)
    ensures ConditionsMean(l, conflict, kong, SecondPass(FirstPass(l, clash, m), conflict))
  {
    hide FirstPass, SecondPass, PortMapOf, Count;
    KongConditionsMean(kong, m, l);
    FinalCounts(l, clash, conflict, m, TypeProgrammed);
    FinalCounts(l, clash, conflict, m, TypeAccepted);
    FinalCounts(l, clash, conflict, m, TypeConflicted);
    FinalCounts(l, clash, conflict, m, TypeResolvedRefs);
    forall c
      ensures c in SecondPass(FirstPass(l, clash, m), conflict) <==>
                InFinal(l, clash, conflict, KongConditions(m, l), c)
    {
      FinalMembers(l, clash, conflict, m, c);
    }
  }

  lemma KongConditionsMean(kong: seq<KongListen>, m: map<Protocol, set<int>>, l: Listener)
    requires PortMapOf(kong, m)
    ensures KongConditions(m, l) == [] <==> KongListens(kong, l)
    ensures KongConditions(m, l) == [Condition(TypeAccepted, false, PortUnavailable)] <==>
              !KongListens(kong, l) && exists k :: k in kong && k.protocol == l.protocol
    ensures KongConditions(m, l) == [Condition(TypeAccepted, false, UnsupportedProtocol)] <==>
              forall k :: k in kong ==> k.protocol != l.protocol
  {
    if l.protocol in m {
      var ports := m[l.protocol];
      var p :| p in ports;
      assert KongListen(l.protocol, p) in kong;
    }
    forall k | k in kong ensures k.protocol in m {
      assert KongListen(k.protocol, k.port) == k;
    }
  }

  lemma {:induction false} CountAppend(a: seq<Condition>, b: seq<Condition>, kind: ConditionType)
    ensures Count(a + b, kind) == Count(a, kind) + Count(b, kind)
    ensures Count(a, kind) > 0 <==> Has(a, kind)
  {
    if a == [] {
      assert a + b == b;
    } else {
      CountAppend(a[1..], b, kind);
      assert (a + b)[1..] == a[1..] + b;
      assert a == [a[0]] + a[1..];
      assert Has(a[1..], kind) ==> Has(a, kind) by {
        if Has(a[1..], kind) {
          var i :| 0 <= i < |a[1..]| && a[1..][i].kind == kind;
          assert a[i + 1].kind == kind;
        }
      }
    }
  }

  lemma {:induction false} StripMeans(cs: seq<Condition>, kind: ConditionType)
    ensures Count(Strip(cs), kind) == if kind == TypeProgrammed || kind == TypeConflicted then 0 else Count(cs, kind)
    ensures forall c :: c in Strip(cs) <==> c in cs && c.kind != TypeProgrammed && c.kind != TypeConflicted
  {
    if cs != [] {
      StripMeans(cs[1..], kind);
      var first := if cs[0].kind == TypeProgrammed || cs[0].kind == TypeConflicted then [] else [cs[0]];
      CountAppend(first, Strip(cs[1..]), kind);
      assert cs == [cs[0]] + cs[1..];
    }
  }

  /** Programmed and Accepted exactly once, the other types at most once. */
  predicate CountOk(n: nat, kind: ConditionType) {
    n <= 1 && (kind == TypeProgrammed || kind == TypeAccepted ==> n == 1)
  }

  lemma ProblemsCount(l: Listener, clash: Option<Reason>, kong: seq<Condition>, kind: ConditionType)
    requires |kong| <= 1 && forall c :: c in kong ==> c.kind == TypeAccepted
    ensures var n := Count(Problems(l, clash, kong), kind); n <= 1 && (kind == TypeProgrammed ==> n == 0)
  {
    var refs := if l.refs != ResolvedRefs then [Condition(TypeResolvedRefs, false, l.refs)] else [];
    var conflict := if clash.Some? then [Condition(TypeConflicted, true, clash.value)] else [];
    CountAppend(refs, conflict, kind);
    CountAppend(refs + conflict, kong, kind);
    assert |kong| == 1 ==> kong == [kong[0]] && kong[0] in kong;
  }

  lemma GeneralCount(problems: seq<Condition>, kind: ConditionType)
    requires Count(problems, kind) <= 1 && (kind == TypeProgrammed ==> Count(problems, kind) == 0)
    ensures var n := Count(General(problems), kind);
            n <= 1 && (kind == TypeProgrammed ==> n == 1)
  {
    if problems == [] {
      var c, r, p := Condition(TypeConflicted, false, NoConflicts), Condition(TypeResolvedRefs, true, ResolvedRefs),
        Condition(TypeProgrammed, true, Programmed);
      CountAppend([c], [r], kind);
      CountAppend([c] + [r], [p], kind);
    } else {
      CountAppend(problems, [Condition(TypeProgrammed, false, Invalid)], kind);
    }
  }

  lemma WithAcceptedCount(cs: seq<Condition>, kind: ConditionType)
    requires Count(cs, kind) <= 1 && (kind == TypeProgrammed ==> Count(cs, kind) == 1)
    ensures CountOk(Count(WithAccepted(cs), kind), kind)
  {
    CountAppend(cs, [Condition(TypeAccepted, true, Accepted)], kind);
  }

  lemma SecondPassCount(first: seq<Condition>, conflict: Option<Reason>, kind: ConditionType)
    requires CountOk(Count(first, kind), kind)
    ensures CountOk(Count(SecondPass(first, conflict), kind), kind)
  {
    if conflict.Some? {
      var c, p := Condition(TypeConflicted, true, conflict.value), Condition(TypeProgrammed, false, Invalid);
      StripMeans(first, kind);
      CountAppend(Strip(first) + [c], [p], kind);
      CountAppend(Strip(first), [c], kind);
      assert Strip(first) + [c] + [p] == Strip(first) + ([c] + [p]);
    }
  }

  lemma FinalCounts(l: Listener, clash: Option<Reason>, conflict: Option<Reason>, m: map<Protocol, set<int>>,
                    kind: ConditionType)
    ensures CountOk(Count(SecondPass(FirstPass(l, clash, m), conflict), kind), kind)
  {
    var problems := Problems(l, clash, KongConditions(m, l));
    ProblemsCount(l, clash, KongConditions(m, l), kind);
    GeneralCount(problems, kind);
    WithAcceptedCount(General(problems), kind);
    SecondPassCount(FirstPass(l, clash, m), conflict, kind);
  }

  /** Which conditions the finished list holds, given what Kong lacks. */
  ghost predicate InFinal(l: Listener, clash: Option<Reason>, conflict: Option<Reason>, kong: seq<Condition>,
                          c: Condition) {
    var clean := l.refs == ResolvedRefs && clash.None? && kong == [];
    || (l.refs != ResolvedRefs && c == Condition(TypeResolvedRefs, false, l.refs))
    || c in kong
    || (kong == [] && c == Condition(TypeAccepted, true, Accepted))
    || (clean && c == Condition(TypeResolvedRefs, true, ResolvedRefs))
    || (conflict.Some?
          && (c == Condition(TypeConflicted, true, conflict.value) || c == Condition(TypeProgrammed, false, Invalid)))
    || (conflict.None? && clean
          && (c == Condition(TypeConflicted, false, NoConflicts) || c == Condition(TypeProgrammed, true, Programmed)))
    || (conflict.None? && !clean && c == Condition(TypeProgrammed, false, Invalid))
  }

  lemma AcceptedAdded(l: Listener, clash: Option<Reason>, kong: seq<Condition>)
    requires |kong| <= 1 && forall c :: c in kong ==> c.kind == TypeAccepted
    ensures Has(General(Problems(l, clash, kong)), TypeAccepted) <==> kong != []
  {
    var cs := General(Problems(l, clash, kong));
    if kong != [] {
      assert kong[0] in kong;
      var k := |cs| - 2;
      assert cs[k] == kong[0];
    }
  }

  lemma FinalMembers(l: Listener, clash: Option<Reason>, conflict: Option<Reason>, m: map<Protocol, set<int>>,
                     c: Condition)
    requires clash.Some? ==> conflict.Some?
    ensures c in SecondPass(FirstPass(l, clash, m), conflict) <==> InFinal(l, clash, conflict, KongConditions(m, l), c)
  {
    hide General, Problems, KongConditions, Has;
    var kong := KongConditions(m, l);
    KongConditionsShort(m, l);
    AcceptedAdded(l, clash, kong);
    GeneralMembers(l, clash, kong, c);
    StripMeans(FirstPass(l, clash, m), TypeAccepted);
  }

  lemma KongConditionsShort(m: map<Protocol, set<int>>, l: Listener)
    ensures var kong := KongConditions(m, l); |kong| <= 1 && forall c :: c in kong ==> c.kind == TypeAccepted
  {
  }

  lemma GeneralMembers(l: Listener, clash: Option<Reason>, kong: seq<Condition>, c: Condition)
    ensures var clean := l.refs == ResolvedRefs && clash.None? && kong == [];
            c in General(Problems(l, clash, kong)) <==>
              || (l.refs != ResolvedRefs && c == Condition(TypeResolvedRefs, false, l.refs))
              || (clash.Some? && c == Condition(TypeConflicted, true, clash.value))
              || c in kong
              || (clean && c == Condition(TypeConflicted, false, NoConflicts))
              || (clean && c == Condition(TypeResolvedRefs, true, ResolvedRefs))
              || (clean && c == Condition(TypeProgrammed, true, Programmed))
              || (!clean && c == Condition(TypeProgrammed, false, Invalid))
  {
  }

  // ---------------------------------------------------------------- the rule on listeners alone

  /** Two listeners may share a port if both speak HTTP, or each speaks HTTPS or TLS. */
  predicate Compatible(a: Listener, b: Listener) {
    || (a.protocol == HTTP && b.protocol == HTTP)
    || (a.protocol in {HTTPS, TLS} && b.protocol in {HTTPS, TLS})
  }

  /** The same hostname, where none and an empty one are the same. */
  predicate SameHostname(a: Listener, b: Listener) {
    a.hostname == b.hostname || (a.hostname in {None, Some("")} && b.hostname in {None, Some("")})
  }

  /** Two listeners on listener i's port are incompatible. */
  ghost predicate PortConflict(ls: seq<Listener>, i: nat)
    requires i < |ls|
  {
    exists a, b :: 0 <= a < |ls| && 0 <= b < |ls| && a != b
                   && ls[a].port == ls[i].port && ls[b].port == ls[i].port && !Compatible(ls[a], ls[b])
  }

  /** Another listener has listener i's port and hostname. */
  ghost predicate NameConflict(ls: seq<Listener>, i: nat)
    requires i < |ls|
  {
    exists j :: 0 <= j < |ls| && j != i && ls[j].port == ls[i].port && SameHostname(ls[j], ls[i])
  }

  /** The pairwise rule in those terms. */
  lemma ConflictRule(ls: seq<Listener>, i: nat)
    requires i < |ls|
    ensures ConflictReason(ls, i) ==
            if PortConflict(ls, i) then Some(ProtocolConflict) else if NameConflict(ls, i)
              then Some(HostnameConflict) else None
  {
    assert forall a: Listener, b: Listener :: CanSharePort(a.protocol, b.protocol) <==> Compatible(a, b);
    assert forall a: Listener, b: Listener :: Host(a) == Host(b) <==> SameHostname(a, b);
    hide CanSharePort, Host, Compatible, SameHostname;
    if PortConflict(ls, i) {
      var a, b :| 0 <= a < |ls| && 0 <= b < |ls| && a != b
        && ls[a].port == ls[i].port && ls[b].port == ls[i].port && !Compatible(ls[a], ls[b]);
      ShareGroup(ls[a].protocol, ls[b].protocol, ls[a].protocol);
      assert a < b || b < a;
    }
  }

  /** What the conditions of listener i say, by protocols, ports, hostnames and what Kong listens on. */
  ghost predicate StatusRule(ls: seq<Listener>, kong: seq<KongListen>, i: nat, cs: seq<Condition>)
    requires i < |ls|
  {
    var listens := KongListen(ls[i].protocol, ls[i].port) in kong;
    && (Condition(TypeConflicted, true, ProtocolConflict) in cs <==> PortConflict(ls, i))
    && (Condition(TypeConflicted, true, HostnameConflict) in cs <==> !PortConflict(ls, i) && NameConflict(ls, i))
    && (Condition(TypeAccepted, true, Accepted) in cs <==> listens)
    && (Condition(TypeProgrammed, true, Programmed) in cs <==>
          ls[i].refs == ResolvedRefs && !PortConflict(ls, i) && !NameConflict(ls, i) && listens)
  }

  lemma StatusByRule(ls: seq<Listener>, kong: seq<KongListen>, i: nat, cs: seq<Condition>)
    requires i < |ls| && StatusMeans(ls, kong, i, cs)
    ensures StatusRule(ls, kong, i, cs)
  {
    ConflictRule(ls, i);
    hide ConflictReason, PortConflict, NameConflict, Count;
  }

  // ---------------------------------------------------------------- order of the listeners

  /** Unique names turn the index form of the rule into a statement about the set of listeners. */
  lemma PairForm(ls: seq<Listener>, port: int)
    requires UniqueNames(ls)
    ensures ProtocolConflictOn(ls, port) <==>
              exists a, b :: a in ls && b in ls && a != b && a.port == port && b.port == port
                && !CanSharePort(a.protocol, b.protocol)
  {
    if ProtocolConflictOn(ls, port) {
      var i, j :| 0 <= i < j < |ls| && ls[i].port == port && ls[j].port == port
        && !CanSharePort(ls[i].protocol, ls[j].protocol);
      assert ls[i] in ls && ls[j] in ls && ls[i] != ls[j];
    }
    if a, b :|
      a in ls && b in ls && a != b && a.port == port && b.port == port && !CanSharePort(a.protocol, b.protocol)
    {
      var i :| 0 <= i < |ls| && ls[i] == a;
      var j :| 0 <= j < |ls| && ls[j] == b;
      ShareGroup(a.protocol, b.protocol, a.protocol);
      assert i < j || j < i;
    }
  }

  lemma HostForm(ls: seq<Listener>, i: nat)
    requires UniqueNames(ls) && i < |ls|
    ensures SharesHostname(ls, i) <==>
              exists a :: a in ls && a != ls[i] && a.port == ls[i].port && Host(a) == Host(ls[i])
  {
    if SharesHostname(ls, i) {
      var j :| 0 <= j < |ls| && j != i && ls[j].port == ls[i].port && Host(ls[j]) == Host(ls[i]);
      assert ls[j] in ls && ls[j] != ls[i];
    }
  }

  /** The reason of a listener is the same wherever the listener stands in the list. */
  lemma ReasonOrderIndependent(ls: seq<Listener>, ms: seq<Listener>, i: nat, j: nat)
    requires UniqueNames(ls) && UniqueNames(ms) && multiset(ls) == multiset(ms)
    requires i < |ls| && j < |ms| && ls[i] == ms[j]
    ensures ConflictReason(ls, i) == ConflictReason(ms, j)
  {
    forall a ensures a in ls <==> a in ms {
      assert a in ls <==> a in multiset(ls);
      assert a in ms <==> a in multiset(ms);
    }
    PairForm(ls, ls[i].port);
    PairForm(ms, ls[i].port);
    HostForm(ls, i);
    HostForm(ms, j);
  }

  /** The same listeners in another order; listener i of ls stands at j. */
  ghost predicate Reordered(ls: seq<Listener>, i: nat, ms: seq<Listener>, j: nat) {
    i < |ls| && j < |ms| && multiset(ls) == multiset(ms) && ls[i] == ms[j]
  }

  lemma {:induction false} NamedOnce(ls: seq<Listener>, l: Listener)
    requires UniqueNames(ls)
    ensures multiset(ls)[l] <= 1
  {
    if ls != [] {
      assert ls == [ls[0]] + ls[1..];
      NamedOnce(ls[1..], l);
      if ls[0] == l {
        assert l !in ls[1..];
      }
    }
  }

  lemma ReorderedUnique(ls: seq<Listener>, ms: seq<Listener>)
    requires UniqueNames(ls) && multiset(ls) == multiset(ms)
    ensures UniqueNames(ms)
  {
    forall a, b | 0 <= a < b < |ms| ensures ms[a].name != ms[b].name {
      assert ms[a] in multiset(ls) && ms[b] in multiset(ls);
      NamedOnce(ls, ms[a]);
      assert ms == ms[..a] + [ms[a]] + ms[a + 1..b] + [ms[b]] + ms[b + 1..];
    }
  }

  const RESOLVED := Condition(TypeResolvedRefs, true, ResolvedRefs)

  /** Every condition other than a positive ResolvedRefs comes out the same in any order of the listeners. */
  lemma StatusOrderIndependent(ls: seq<Listener>, kong: seq<KongListen>, i: nat, ms: seq<Listener>, j: nat)
    requires UniqueNames(ls) && Reordered(ls, i, ms, j)
    ensures forall c :: c != RESOLVED ==> (c in Status(ls, kong, i) <==> c in Status(ms, kong, j))
  {
    ReorderedUnique(ls, ms);
    ReasonOrderIndependent(ls, ms, i, j);
    forall c | c != RESOLVED ensures c in Status(ls, kong, i) <==> c in Status(ms, kong, j) {
      StatusMembers(ls, kong, i, c);
      StatusMembers(ms, kong, j, c);
      hide ConflictReason, Clash, ScanAll, Final, KongConditions, PortMap;
    }
  }

  lemma StatusMembers(ls: seq<Listener>, kong: seq<KongListen>, i: nat, c: Condition)
    requires i < |ls|
    ensures var clash, conflict := Clash(ScanAll(ls[..i]), ls[i]), ConflictReason(ls, i);
            && (clash.Some? ==> conflict.Some?)
            && (c in Status(ls, kong, i) <==> InFinal(ls[i], clash, conflict, KongConditions(PortMap(kong), ls[i]), c))
  {
    hide FirstPass, SecondPass, ConflictReason, Clash, ScanAll, KongConditions, PortMap, InFinal;
    if Clash(ScanAll(ls[..i]), ls[i]).Some? {
      ClashIsConflict(ls, i);
    }
    FinalMembers(ls[i], Clash(ScanAll(ls[..i]), ls[i]), ConflictReason(ls, i), PortMap(kong), c);
  }

  /** The listener has the same conditions, in the same sequence, in any order of the listeners. */
  ghost predicate OrderIrrelevant(ls: seq<Listener>, kong: seq<KongListen>, i: nat)
    requires i < |ls|
  {
    forall ms, j :: Reordered(ls, i, ms, j) ==> Status(ms, kong, j) == Status(ls, kong, i)
  }

  /** The order matters to exactly those listeners that conflict though nothing else is wrong with them. */
  lemma OrderIrrelevantExactly(ls: seq<Listener>, kong: seq<KongListen>, i: nat)
    requires UniqueNames(ls) && i < |ls|
    ensures OrderIrrelevant(ls, kong, i) <==>
              ConflictReason(ls, i).None? || ls[i].refs != ResolvedRefs || !KongListens(kong, ls[i])
  {
    hide ConflictReason, Status, KongListens;
    if ConflictReason(ls, i).None? || ls[i].refs != ResolvedRefs || !KongListens(kong, ls[i]) {
      forall ms, j | Reordered(ls, i, ms, j) ensures Status(ms, kong, j) == Status(ls, kong, i) {
        SameInAnyOrder(ls, kong, i, ms, j);
      }
    } else {
      var ms, ns := TwoOrdersDiffer(ls, kong, i);
    }
  }

  lemma SameInAnyOrder(ls: seq<Listener>, kong: seq<KongListen>, i: nat, ms: seq<Listener>, j: nat)
    requires UniqueNames(ls) && Reordered(ls, i, ms, j)
    requires ConflictReason(ls, i).None? || ls[i].refs != ResolvedRefs || !KongListens(kong, ls[i])
    ensures Status(ms, kong, j) == Status(ls, kong, i)
  {
    hide ConflictReason, Clash, ScanAll, KongListens, FirstPass, SecondPass, PortMap, PortMapOf;
    ReorderedUnique(ls, ms);
    ReasonOrderIndependent(ls, ms, i, j);
    var m, a, b := PortMap(kong), Clash(ScanAll(ls[..i]), ls[i]), Clash(ScanAll(ms[..j]), ms[j]);
    PortMapUnique(kong, m);
    KongConditionsMean(kong, m, ls[i]);
    if ConflictReason(ls, i).None? {
      NoConflictNoClash(ls, i);
      NoConflictNoClash(ms, j);
    } else {
      ClashStripped(ls[i], a, b, m);
    }
  }

  lemma NoConflictNoClash(ls: seq<Listener>, i: nat)
    requires i < |ls| && ConflictReason(ls, i).None?
    ensures Clash(ScanAll(ls[..i]), ls[i]).None?
  {
    hide ConflictReason, Clash, ScanAll;
    if Clash(ScanAll(ls[..i]), ls[i]).Some? {
      ClashIsConflict(ls, i);
    }
  }

  /** With another problem present, stripping leaves no trace of what the first pass saw. */
  lemma ClashStripped(l: Listener, a: Option<Reason>, b: Option<Reason>, m: map<Protocol, set<int>>)
    requires l.refs != ResolvedRefs || KongConditions(m, l) != []
    ensures forall reason: Option<Reason> :: reason.Some? ==>
              SecondPass(FirstPass(l, a, m), reason) == SecondPass(FirstPass(l, b, m), reason)
  {
    var kong := KongConditions(m, l);
    KongConditionsShort(m, l);
    hide KongConditions;
    StrippedForm(l, a, kong);
    StrippedForm(l, b, kong);
    hide General, Problems, WithAccepted;
  }

  lemma StrippedForm(l: Listener, clash: Option<Reason>, kong: seq<Condition>)
    requires |kong| <= 1 && forall c :: c in kong ==> c.kind == TypeAccepted
    requires l.refs != ResolvedRefs || kong != []
    ensures Strip(WithAccepted(General(Problems(l, clash, kong)))) ==
            (if l.refs != ResolvedRefs then [Condition(TypeResolvedRefs, false, l.refs)] else [])
            + kong + (if kong == [] then [Condition(TypeAccepted, true, Accepted)] else [])
  {
    AcceptedAdded(l, clash, kong);
    hide Has;
    var refs := if l.refs != ResolvedRefs then [Condition(TypeResolvedRefs, false, l.refs)] else [];
    var seen := if clash.Some? then [Condition(TypeConflicted, true, clash.value)] else [];
    var accepted := if kong == [] then [Condition(TypeAccepted, true, Accepted)] else [];
    var invalid := [Condition(TypeProgrammed, false, Invalid)];
    assert Problems(l, clash, kong) == refs + seen + kong;
    assert WithAccepted(General(Problems(l, clash, kong))) == refs + seen + kong + invalid + accepted by {
      assert refs + seen + kong != [];
    }
    hide WithAccepted, General, Problems;
    assert forall c :: c in seen + invalid ==> c.kind == TypeConflicted || c.kind == TypeProgrammed;
    assert forall c :: c in refs + kong + accepted ==> c.kind == TypeResolvedRefs || c.kind == TypeAccepted;
    StripParts(refs, seen, kong, invalid, accepted);
  }

  lemma StripParts(a: seq<Condition>, x: seq<Condition>, b: seq<Condition>, y: seq<Condition>, c: seq<Condition>)
    requires forall d :: d in x + y ==> d.kind == TypeConflicted || d.kind == TypeProgrammed
    requires forall d :: d in a + b + c ==> d.kind == TypeResolvedRefs || d.kind == TypeAccepted
    ensures Strip(a + x + b + y + c) == a + b + c
  {
    StripAppend(a + x + b + y, c);
    StripAppend(a + x + b, y);
    StripAppend(a + x, b);
    StripAppend(a, x);
    hide Strip;
    StripsAll(x);
    StripsAll(y);
    StripsNone(a);
    StripsNone(b);
    StripsNone(c);
  }

  lemma {:induction false} StripsAll(x: seq<Condition>)
    requires forall d :: d in x ==> d.kind == TypeConflicted || d.kind == TypeProgrammed
    ensures Strip(x) == []
  {
    if x != [] {
      assert x[0] in x;
      StripsAll(x[1..]);
    }
  }

  lemma {:induction false} StripsNone(x: seq<Condition>)
    requires forall d :: d in x ==> d.kind == TypeResolvedRefs || d.kind == TypeAccepted
    ensures Strip(x) == x
  {
    if x != [] {
      assert x[0] in x && x == [x[0]] + x[1..];
      StripsNone(x[1..]);
    }
  }

  lemma {:induction false} StripAppend(a: seq<Condition>, b: seq<Condition>)
    ensures Strip(a + b) == Strip(a) + Strip(b)
  {
    if a == [] {
      assert a + b == b;
    } else {
      assert (a + b)[1..] == a[1..] + b;
      StripAppend(a[1..], b);
    }
  }

  /** A listener on the same port that conflicts with listener i directly. */
  lemma Opponent(ls: seq<Listener>, i: nat) returns (o: nat)
    requires i < |ls| && ConflictReason(ls, i).Some?
    ensures o < |ls| && o != i && ls[o].port == ls[i].port
    ensures !CanSharePort(ls[i].protocol, ls[o].protocol) || Host(ls[o]) == Host(ls[i])
  {
    var p := ls[i].port;
    if ProtocolConflictOn(ls, p) {
      var a, b :| 0 <= a < b < |ls| && ls[a].port == p && ls[b].port == p
        && !CanSharePort(ls[a].protocol, ls[b].protocol);
      ShareGroup(ls[a].protocol, ls[i].protocol, ls[b].protocol);
      ShareGroup(ls[i].protocol, ls[b].protocol, ls[a].protocol);
      o := if a != i && !CanSharePort(ls[i].protocol, ls[a].protocol) then a else b;
    } else {
      o :| 0 <= o < |ls| && o != i && ls[o].port == p && Host(ls[o]) == Host(ls[i]);
    }
  }

  /** The listener put first is shown with its references resolved; behind its opponent it is not. */
  lemma TwoOrdersDiffer(ls: seq<Listener>, kong: seq<KongListen>, i: nat) returns (ms: seq<Listener>, ns: seq<Listener>)
    requires UniqueNames(ls) && i < |ls|
    requires ConflictReason(ls, i).Some? && ls[i].refs == ResolvedRefs && KongListens(kong, ls[i])
    ensures Reordered(ls, i, ms, 0) && RESOLVED in Status(ms, kong, 0)
    ensures Reordered(ls, i, ns, 1) && RESOLVED !in Status(ns, kong, 1)
  {
    var o := Opponent(ls, i);
    ms, ns := TwoOrders(ls, i, o);
    hide ConflictReason;
    PortMapUnique(kong, PortMap(kong));
    ResolvedRefsShownExactly(ms, kong, PortMap(kong), 0);
    ResolvedRefsShownExactly(ns, kong, PortMap(kong), 1);
    hide Final, PortMap, KongListens, Clash, ScanAll, Reordered;
    ClashBehind(ls[o], ls[i]);
  }

  /** Listener i first, and listener i second behind listener o. */
  lemma TwoOrders(ls: seq<Listener>, i: nat, o: nat) returns (ms: seq<Listener>, ns: seq<Listener>)
    requires i < |ls| && o < |ls| && i != o
    ensures Reordered(ls, i, ms, 0) && ms[0] == ls[i] && ms[..0] == []
    ensures Reordered(ls, i, ns, 1) && ns[1] == ls[i] && ns[..1] == [ls[o]]
  {
    MovedFirst(ls, i);
    ms := MoveFirst(ls, i);
    var at := if o < i then o + 1 else o;
    MovedFirst(ms, at);
    ns := MoveFirst(ms, at);
    hide MoveFirst;
    assert ns[..1] == [ns[0]];
  }

  function MoveFirst(ls: seq<Listener>, i: nat): seq<Listener>
    requires i < |ls|
  {
    [ls[i]] + (ls[..i] + ls[i + 1..])
  }

  lemma MovedFirst(ls: seq<Listener>, i: nat)
    requires i < |ls|
    ensures var ms := MoveFirst(ls, i);
            && multiset(ms) == multiset(ls) && |ms| == |ls| && ms[0] == ls[i]
            && (forall k :: 0 <= k < i ==> ms[k + 1] == ls[k]) && (forall k :: i < k < |ls| ==> ms[k] == ls[k])
  {
    MovedMultiset(ls, i);
  }

  lemma MovedMultiset(ls: seq<Listener>, i: nat)
    requires i < |ls|
    ensures multiset(MoveFirst(ls, i)) == multiset(ls)
  {
    assert ls == ls[..i] + [ls[i]] + ls[i + 1..];
  }

  lemma ClashBehind(q: Listener, l: Listener)
    requires q.port == l.port && (!CanSharePort(l.protocol, q.protocol) || Host(q) == Host(l))
    ensures Clash(ScanAll([q]), l).Some? && Clash(ScanAll([]), l).None?
  {
    assert [q][..0] == [];
    assert ScanAll([q]) == Visit(ScanAll([]), q);
  }

  /** A positive ResolvedRefs condition is there exactly when the first pass found nothing wrong. */
  lemma ResolvedRefsShownExactly(ls: seq<Listener>, kong: seq<KongListen>, m: map<Protocol, set<int>>, i: nat)
    requires i < |ls| && PortMapOf(kong, m)
    ensures RESOLVED in Final(ls, m, i) <==>
              ls[i].refs == ResolvedRefs && KongListens(kong, ls[i]) && Clash(ScanAll(ls[..i]), ls[i]).None?
  {
    var l, clash, conflict := ls[i], Clash(ScanAll(ls[..i]), ls[i]), ConflictReason(ls, i);
    if clash.Some? {
      ClashIsConflict(ls, i);
    }
    KongConditionsMean(kong, m, l);
    FinalMembers(l, clash, conflict, m, Condition(TypeResolvedRefs, true, ResolvedRefs));
  }

  /** So the full condition list does depend on the order: two TCP listeners on one port. */
  lemma ResolvedRefsOrderDependent()
    ensures var a := Listener("a", 9000, TCP, None, ResolvedRefs); var b := Listener("b", 9000, TCP, None,
              ResolvedRefs);
            var kong := map[TCP := {9000}];
            && Condition(TypeResolvedRefs, true, ResolvedRefs) in Final([a, b], kong, 0)
            && Condition(TypeResolvedRefs, true, ResolvedRefs) !in Final([b, a], kong, 1)
  {
    var a, b := Listener("a", 9000, TCP, None, ResolvedRefs), Listener("b", 9000, TCP, None, ResolvedRefs);
    var kong := [KongListen(TCP, 9000)];
    var m := map[TCP := {9000}];
    assert PortMapOf(kong, m);
    ResolvedRefsShownExactly([a, b], kong, m, 0);
    ResolvedRefsShownExactly([b, a], kong, m, 1);
    assert [a, b][..0] == [];
    assert [b, a][..1] == [b];
    assert [b][..0] == [];
    assert ScanAll([b]).portToProtocol == map[9000 := TCP];
  }

  // ---------------------------------------------------------------- the loops

  /** buildKongPortMap */
  method BuildKongPortMap(listens: seq<KongListen>) returns (p: map<Protocol, set<int>>)
    ensures PortMapOf(listens, p)
  {
    p := map[];
    for i := 0 to |listens|
      invariant PortMapOf(listens[..i], p)
    {
      var listen := listens[i];
      if listen.protocol !in p {
        p := p[listen.protocol := {listen.port}];
      } else {
        p := p[listen.protocol := p[listen.protocol] + {listen.port}];
      }
      assert listens[..i + 1] == listens[..i] + [listen];
    }
    assert listens[..|listens|] == listens;
  }

  /** The first loop of getListenerStatus: condition lists by listener name, and the lookup maps. */
  method FirstLoop(listeners: seq<Listener>, kong: map<Protocol, set<int>>)
    returns (statuses: map<string, seq<Condition>>, sc: Scan)
    requires UniqueNames(listeners)
    ensures sc == ScanAll(listeners) && FirstStatuses(listeners, kong, statuses)
  {
    hide FirstPass, Visit, Clash, ScanAll, Names;
    ScanNothing();
    sc := Scan(map[], {}, {}, {});
    statuses := map[];
    for i := 0 to |listeners|
      invariant sc == ScanAll(listeners[..i])
      invariant statuses.Keys == Names(listeners[..i])
      invariant forall j :: 0 <= j < i ==>
                  listeners[j].name in statuses && statuses[listeners[j].name] == AfterFirst(listeners, kong, j)
    {
      var l := listeners[i];
      statuses := statuses[l.name := FirstPass(l, Clash(sc, l), kong)];
      sc := Visit(sc, l);
      ScanSnoc(listeners, i);
    }
    assert listeners[..|listeners|] == listeners;
  }

  /** Every listener has its conditions of the first pass, and nothing else is listed. */
  ghost predicate FirstStatuses(ls: seq<Listener>, kong: map<Protocol, set<int>>,
                                statuses: map<string, seq<Condition>>) {
    && statuses.Keys == Names(ls)
    && forall j :: 0 <= j < |ls| ==> ls[j].name in statuses && statuses[ls[j].name] == AfterFirst(ls, kong, j)
  }

  lemma ScanNothing()
    ensures ScanAll([]) == Scan(map[], {}, {}, {}) && Names([]) == {}
  {
  }

  lemma ScanSnoc(ls: seq<Listener>, i: nat)
    requires i < |ls|
    ensures ScanAll(ls[..i + 1]) == Visit(ScanAll(ls[..i]), ls[i])
    ensures Names(ls[..i + 1]) == Names(ls[..i]) + {ls[i].name}
  {
    hide Visit;
    assert ls[..i + 1] == ls[..i] + [ls[i]];
    assert ls[..i + 1][..i] == ls[..i];
  }

  function Names(ls: seq<Listener>): set<string> {
    set l | l in ls :: l.name
  }

  function AfterFirst(ls: seq<Listener>, kong: map<Protocol, set<int>>, j: nat): seq<Condition>
    requires j < |ls|
  {
    FirstPass(ls[j], Clash(ScanAll(ls[..j]), ls[j]), kong)
  }

  /** getListenerStatus: the status conditions by listener name, the resolved-refs reasons given. */
  method GetListenerStatus(listeners: seq<Listener>, kongListens: seq<KongListen>)
    returns (statuses: map<string, seq<Condition>>)
    requires UniqueNames(listeners)
    ensures statuses.Keys == Names(listeners)
    ensures forall i :: 0 <= i < |listeners| ==> statuses[listeners[i].name] == Status(listeners, kongListens, i)
    ensures forall i :: 0 <= i < |listeners| ==> StatusMeans(listeners, kongListens, i, statuses[listeners[i].name])
    ensures forall i :: 0 <= i < |listeners| ==> StatusRule(listeners, kongListens, i, statuses[listeners[i].name])
  {
    hide FirstPass, SecondPass, SpreadReason, StatusMeans, StatusRule, PortMapOf, PortMap, ScanAll, ConflictReason;
    hide Clash, Visit;
    var kong := BuildKongPortMap(kongListens);
    PortMapUnique(kongListens, kong);
    var sc;
    statuses, sc := FirstLoop(listeners, kong);
    for i := 0 to |listeners|
      invariant statuses.Keys == Names(listeners)
      invariant forall j :: 0 <= j < i ==> statuses[listeners[j].name] == Status(listeners, kongListens, j)
      invariant forall j :: i <= j < |listeners| ==> statuses[listeners[j].name] == AfterFirst(listeners, kong, j)
    {
      var l := listeners[i];
      SpreadIsPairwise(listeners, i);
      statuses := statuses[l.name := SecondPass(statuses[l.name], SpreadReason(sc, l))];
    }
    forall i | 0 <= i < |listeners|
      ensures StatusMeans(listeners, kongListens, i, statuses[listeners[i].name])
      ensures StatusRule(listeners, kongListens, i, statuses[listeners[i].name])
    {
      FinalMeans(listeners, kongListens, kong, i);
      StatusByRule(listeners, kongListens, i, statuses[listeners[i].name]);
    }
  }
}
