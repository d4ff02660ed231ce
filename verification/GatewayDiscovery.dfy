/**
 Gateway discovery: EndpointSlice events keep a per-slice cache of Admin API endpoints; every change
 is handed over, as the flattened cache, to the manager of Admin API clients, which keeps the known
 gateways in a ready and a pending map and moves them according to readiness answers.

 The hand-over is a rendezvous: a reconciler with a notification waiting does not process another
 event until the manager has taken it, while readiness ticks may come in between.
 */
module GatewayDiscovery {
  import opened Common

  /** adminapi.DiscoveredAdminAPI */
  datatype API = API(address: string, podRef: NamespacedName)

  /** An Admin API client: its base URL and, if known, its pod. */
  datatype Client = Client(url: string, podRef: Option<NamespacedName>)

  type SliceCache = map<NamespacedName, set<API>>

  /** What reading the EndpointSlice of an event gives; no discovered set means discovery failed. */
  datatype SliceRead = SliceNotFound | SliceReadFailed | SliceFound(deleting: bool, discovered: Option<set<API>>)

  function Union(cache: SliceCache): set<API> {
    set k, a | k in cache && a in cache[k] :: a
  }

  function Addresses(apis: set<API>): set<string> {
    set a | a in apis :: a.address
  }

  function Elements(s: seq<API>): set<API> {
    set a | a in s
  }

  // ---------------------------------------------------------------- the reconciler

  /** The cache after an event. A slice seen for the first time is entered even if discovery fails. */
  function CacheAfter(cache: SliceCache, req: NamespacedName, r: SliceRead): SliceCache {
    match r
    case SliceReadFailed => cache
    case SliceNotFound => cache - {req}
    case SliceFound(deleting, discovered) =>
      if deleting then cache - {req}
      else if discovered.Some? then cache[req := discovered.value]
      else if req in cache then cache
      else cache[req := {}]
  }

  predicate Notifies(cache: SliceCache, req: NamespacedName, r: SliceRead) {
    match r
    case SliceReadFailed => false
    case SliceNotFound => req in cache
    case SliceFound(deleting, discovered) =>
      if deleting then req in cache
      else discovered.Some? && (req !in cache || cache[req] != discovered.value)
  }

  /** An event that does not notify leaves the union of the cached sets as it was. */
  lemma SilentEventsChangeNothing(cache: SliceCache, req: NamespacedName, r: SliceRead)
    requires !Notifies(cache, req, r)
    ensures Union(CacheAfter(cache, req, r)) == Union(cache)
  {
    var after := CacheAfter(cache, req, r);
    forall a ensures a in Union(after) <==> a in Union(cache) {
      if k :| k in after && a in after[k] {
        assert k in cache && a in cache[k];
      }
      if k :| k in cache && a in cache[k] {
        assert k in after && a in after[k];
      }
    }
  }

  /** A notification is sent exactly when the entry of the slice changed, unless discovery failed. */
  lemma NotifiesExactly(cache: SliceCache, req: NamespacedName, r: SliceRead)
    ensures Notifies(cache, req, r) <==>
              CacheAfter(cache, req, r) != cache && !(r.SliceFound? && !r.deleting && r.discovered.None?)
  {
    if Notifies(cache, req, r) {
      assert req in CacheAfter(cache, req, r) <==> r.SliceFound? && !r.deleting;
    } else if r.SliceNotFound? || (r.SliceFound? && r.deleting) {
      assert cache - {req} == cache;
    }
  }

  class AdminAPIServiceReconciler {
    var cache: SliceCache

    /** Reconcile; notification is what is passed to the notifier, if anything. */
    method Reconcile(req: NamespacedName, r: SliceRead) returns (notification: Option<seq<API>>, failed: bool)
      modifies this
      ensures cache == CacheAfter(old(cache), req, r)
      ensures notification.Some? <==> Notifies(old(cache), req, r)
      ensures notification.Some? ==> Elements(notification.value) == Union(cache)
      ensures failed <==> r.SliceReadFailed? || (r.SliceFound? && !r.deleting && r.discovered.None?)
    {
      notification, failed := None, false;
      if r.SliceReadFailed? {
        failed := true;
      } else if r.SliceNotFound? || r.deleting {
        if req in cache {
          cache := cache - {req};
          var all := FlattenDiscoveredAdminAPIs(cache);
          notification := Some(all);
        }
      } else if req !in cache {
        // Go assigns both results: on error the entry is the nil set.
        cache := cache[req := r.discovered.GetOr({})];
        if r.discovered.None? {
          failed := true;
          return;
        }
        var all := FlattenDiscoveredAdminAPIs(cache);
        notification := Some(all);
      } else if r.discovered.None? {
        failed := true;
      } else if cache[req] != r.discovered.value {
        cache := cache[req := r.discovered.value];
        var all := FlattenDiscoveredAdminAPIs(cache);
        notification := Some(all);
      }
    }
  }

  /** flattenDiscoveredAdminAPIs: the order, and the repetition of an endpoint in two slices, are accidental. */
  method FlattenDiscoveredAdminAPIs(cache: SliceCache) returns (apis: seq<API>)
    ensures Elements(apis) == Union(cache)
  {
    apis := [];
    var slices := cache.Keys;
    while slices != {}
      invariant slices <= cache.Keys
      invariant forall a :: a in apis <==> exists k :: k in cache && k !in slices && a in cache[k]
      decreases slices
    {
      var k :| k in slices;
      var list := UnsortedList(cache[k]);
      apis := apis + list;
      slices := slices - {k};
    }
  }

  // ---------------------------------------------------------------- the clients manager, on values

  datatype Clients = Clients(ready: map<string, Client>, pending: map<string, API>) {
    /** Every known gateway is in exactly one map, under its own address. */
    ghost predicate Valid() {
      && ready.Keys !! pending.Keys
      && (forall k :: k in ready ==> ready[k].url == k)
      && (forall k :: k in pending ==> pending[k].address == k)
    }

    function Known(): set<string> {
      ready.Keys + pending.Keys
    }
  }

  /** adjustGatewayClients: the known gateways become the discovered ones, new ones pending. */
  ghost predicate Adjusts(c: Clients, discovered: set<API>, c': Clients, changed: bool) {
    var addresses := Addresses(discovered);
    && c'.ready == (map k | k in c.ready && k in addresses :: c.ready[k])
    && c'.pending.Keys == addresses - c.ready.Keys
    && (forall k :: k in c'.pending ==> c'.pending[k] in discovered && c'.pending[k].address == k)
    && (changed <==> !(c.Known() <= addresses))
  }

  function ClientFor(a: API): Client {
    Client(a.address, Some(a.podRef))
  }

  /** Answers of the gateways: can a client be created for the endpoint, is the existing client ready. */
  datatype Probe = Probe(creatable: API -> bool, isReady: Client -> bool)

  predicate TurnsPending(p: Probe, c: Client) {
    !p.isReady(c) && c.podRef.Some?
  }

  /** reconcileGatewayClientsReadiness, including CheckReadiness of the default checker. */
  function Probed(c: Clients, p: Probe): Clients {
    Clients(
      (map k | k in c.ready && !TurnsPending(p, c.ready[k]) :: c.ready[k])
        + (map k | k in c.pending && p.creatable(c.pending[k]) :: ClientFor(c.pending[k])),
      (map k | k in c.pending && !p.creatable(c.pending[k]) :: c.pending[k])
        + (map k | k in c.ready && TurnsPending(p, c.ready[k]) :: API(c.ready[k].url, c.ready[k].podRef.value)))
  }

  ghost predicate ProbeChanges(c: Clients, p: Probe) {
    || (exists k :: k in c.ready && TurnsPending(p, c.ready[k]))
    || (exists k :: k in c.pending && p.creatable(c.pending[k]))
  }

  lemma ProbeKeepsKnown(c: Clients, p: Probe)
    requires c.Valid()
    ensures Probed(c, p).Valid() && Probed(c, p).Known() == c.Known()
  {
    var c' := Probed(c, p);
    forall k | k in c.Known() ensures k in c'.Known() {
      if k in c.ready {
        assert TurnsPending(p, c.ready[k]) || !TurnsPending(p, c.ready[k]);
      }
    }
  }

  /** Readiness moves gateways between the maps and loses none; the ready set changes exactly when reported. */
  lemma ProbeConserves(c: Clients, p: Probe)
    requires c.Valid()
    ensures Probed(c, p).Valid() && Probed(c, p).Known() == c.Known()
    ensures ProbeChanges(c, p) <==> Probed(c, p).ready.Keys != c.ready.Keys
    ensures forall k :: k in c.ready && c.ready[k].podRef.None? ==> k in Probed(c, p).ready
  {
    var c' := Probed(c, p);
    ProbeKeepsKnown(c, p);
    hide Clients.Known;
    if k :| k in c.ready && TurnsPending(p, c.ready[k]) {
      assert k in c.ready && k !in c'.ready;
    } else if k :| k in c.pending && p.creatable(c.pending[k]) {
      assert k !in c.ready && k in c'.ready;
    } else {
      assert c'.ready.Keys == c.ready.Keys;
    }
  }

  lemma AdjustConserves(c: Clients, discovered: set<API>, c': Clients, changed: bool)
    requires c.Valid() && Adjusts(c, discovered, c', changed)
    ensures c'.Valid() && c'.Known() == Addresses(discovered)
    ensures c'.ready.Keys <= c.ready.Keys
    ensures !changed ==> c'.ready == c.ready
  {
  }

  /** A notification: adjust, probe, and signal the subscribers if either reported a change. */
  ghost predicate NotificationStep(c: Clients, discovered: set<API>, p: Probe, c': Clients, signal: bool) {
    exists mid, changed :: Adjusts(c, discovered, mid, changed) && c' == Probed(mid, p)
      && signal == (changed || ProbeChanges(mid, p))
  }

  ghost predicate TickStep(c: Clients, p: Probe, c': Clients, signal: bool) {
    c' == Probed(c, p) && signal == ProbeChanges(c, p)
  }

  /** Subscribers are signalled exactly when a known gateway disappeared or the ready set changed. */
  lemma SignalExactly(c: Clients, discovered: set<API>, p: Probe, c': Clients, signal: bool)
    requires c.Valid() && NotificationStep(c, discovered, p, c', signal)
    ensures c'.Valid() && c'.Known() == Addresses(discovered)
    ensures signal <==> !(c.Known() <= c'.Known()) || c'.ready.Keys != c.ready.Keys
  {
    hide Adjusts, Probed, ProbeChanges, Clients.Valid;
    var mid, changed :| Adjusts(c, discovered, mid, changed) && c' == Probed(mid, p)
      && signal == (changed || ProbeChanges(mid, p));
    AdjustConserves(c, discovered, mid, changed);
    ProbeConserves(mid, p);
    AdjustReports(c, discovered, mid, changed);
  }

  lemma AdjustReports(c: Clients, discovered: set<API>, c': Clients, changed: bool)
    requires Adjusts(c, discovered, c', changed)
    ensures changed <==> !(c.Known() <= Addresses(discovered))
  {
  }

  lemma TickSignalsExactly(c: Clients, p: Probe, c': Clients, signal: bool)
    requires c.Valid() && TickStep(c, p, c', signal)
    ensures c'.Valid() && c'.Known() == c.Known()
    ensures signal <==> c'.ready.Keys != c.ready.Keys
  {
    ProbeConserves(c, p);
  }

  // ---------------------------------------------------------------- the fate of one gateway

  /** A tick: a ready gateway becomes pending exactly if it does not answer and its pod is known; a
      pending one becomes ready exactly if a client can be created. */
  lemma TickFate(c: Clients, p: Probe, k: string)
    requires c.Valid()
    ensures var c' := Probed(c, p);
            && (k in c.ready ==> if p.isReady(c.ready[k]) || c.ready[k].podRef.None?
                                 then k in c'.ready && c'.ready[k] == c.ready[k]
                                 else k in c'.pending && c'.pending[k] == API(k, c.ready[k].podRef.value))
            && (k in c.pending ==> if p.creatable(c.pending[k])
                                   then k in c'.ready && c'.ready[k] == Client(k, Some(c.pending[k].podRef))
                                   else k in c'.pending && c'.pending[k] == c.pending[k])
  {
  }

  /** A notification: a gateway no longer discovered is forgotten; one that was ready fares as with a
      tick; any other is ready or pending by whether a client can be created for a discovered endpoint. */
  lemma NotificationFate(c: Clients, discovered: set<API>, p: Probe, c': Clients, signal: bool, k: string)
    requires c.Valid() && NotificationStep(c, discovered, p, c', signal)
    ensures (exists a :: a in discovered && a.address == k) <==> k in c'.Known()
    ensures k in c'.Known() && k in c.ready ==>
              if p.isReady(c.ready[k]) || c.ready[k].podRef.None?
              then k in c'.ready && c'.ready[k] == c.ready[k]
              else k in c'.pending && c'.pending[k] == API(k, c.ready[k].podRef.value)
    ensures k in c'.Known() && k !in c.ready ==>
              exists a :: a in discovered && a.address == k
                          && if p.creatable(a) then k in c'.ready && c'.ready[k] == Client(k, Some(a.podRef))
                             else k in c'.pending && c'.pending[k] == a
  {
    SignalExactly(c, discovered, p, c', signal);
    var mid, changed :| Adjusts(c, discovered, mid, changed) && c' == Probed(mid, p)
      && signal == (changed || ProbeChanges(mid, p));
    AdjustConserves(c, discovered, mid, changed);
    TickFate(mid, p, k);
    ProbeKeepsKnown(mid, p);
    hide Probed, ProbeChanges;
  }

  // ---------------------------------------------------------------- whole runs of the pipeline

  /** Both components; slot is a notification waiting to be taken, delivered the last one taken. */
  datatype Pipeline = Pipeline(cache: SliceCache, slot: Option<set<API>>, clients: Clients, delivered: Option<set<API>>)

  datatype Event = SliceEvent(req: NamespacedName, read: SliceRead) | Deliver(probe: Probe) | Tick(tickProbe: Probe)

  ghost predicate Step(s: Pipeline, e: Event, s': Pipeline) {
    match e
    case SliceEvent(req, r) =>
      s.slot.None? && s' == s.(cache := CacheAfter(s.cache, req, r),
                               slot := if Notifies(s.cache, req, r) then Some(Union(CacheAfter(s.cache, req, r)))
                                 else None)
    case Deliver(p) =>
      && s.slot.Some?
      && (exists signal :: NotificationStep(s.clients, s.slot.value, p, s'.clients, signal))
      && s' == s.(slot := None, delivered := s.slot, clients := s'.clients)
    case Tick(p) =>
      s' == s.(clients := Probed(s.clients, p))
  }

  ghost predicate Invariant(s: Pipeline) {
    && s.clients.Valid()
    && (s.delivered.Some? ==> s.clients.Known() == Addresses(s.delivered.value))
    && (s.slot.Some? ==> s.slot.value == Union(s.cache))
    && (s.slot.None? ==> s.delivered.GetOr({}) == Union(s.cache))
  }

  lemma StepKeepsInvariant(s: Pipeline, e: Event, s': Pipeline)
    requires Invariant(s) && Step(s, e, s')
    ensures Invariant(s')
  {
    hide Clients.Valid, Probed, NotificationStep, Union, CacheAfter, Notifies;
    match e
    case SliceEvent(req, r) =>
      if !Notifies(s.cache, req, r) {
        SilentEventsChangeNothing(s.cache, req, r);
      }
    case Deliver(p) =>
      var signal :| NotificationStep(s.clients, s.slot.value, p, s'.clients, signal);
      SignalExactly(s.clients, s.slot.value, p, s'.clients, signal);
    case Tick(p) =>
      ProbeConserves(s.clients, p);
  }

  ghost predicate Run(states: seq<Pipeline>, events: seq<Event>) {
    && |states| == |events| + 1
    && states[0].cache == map[] && states[0].slot.None? && states[0].delivered.None? && states[0].clients.Valid()
    && forall i :: 0 <= i < |events| ==> Step(states[i], events[i], states[i + 1])
  }

  lemma {:induction false} RunKeepsInvariant(states: seq<Pipeline>, events: seq<Event>, k: nat)
    requires Run(states, events) && k < |states|
    ensures Invariant(states[k])
  {
    if k == 0 {
      assert Union(states[0].cache) == {};
    } else {
      RunKeepsInvariant(states, events, k - 1);
      StepKeepsInvariant(states[k - 1], events[k - 1], states[k]);
    }
  }

  /** Conservation across both components, over every run: once a notification has been processed and
      none is waiting, the ready and pending maps together hold exactly the cached addresses. */
  lemma PipelineConserves(states: seq<Pipeline>, events: seq<Event>, k: nat)
    requires Run(states, events) && k < |states|
    requires states[k].delivered.Some? && states[k].slot.None?
    ensures states[k].clients.Valid()
    ensures states[k].clients.ready.Keys + states[k].clients.pending.Keys == Addresses(Union(states[k].cache))
  {
    RunKeepsInvariant(states, events, k);
  }

  // ---------------------------------------------------------------- the cache read off the events

  /** The event found the slice, and not on its way out. */
  predicate Sees(e: Event, k: NamespacedName) {
    e.SliceEvent? && e.req == k && e.read.SliceFound? && !e.read.deleting
  }

  /** The event found the slice gone or on its way out. */
  predicate Misses(e: Event, k: NamespacedName) {
    e.SliceEvent? && e.req == k && (e.read.SliceNotFound? || (e.read.SliceFound? && e.read.deleting))
  }

  predicate Discovers(e: Event, k: NamespacedName) {
    Sees(e, k) && e.read.discovered.Some?
  }

  /** The latest event that says whether the slice exists found it. */
  ghost predicate Exists(events: seq<Event>, k: NamespacedName) {
    exists j :: 0 <= j < |events| && Sees(events[j], k) && forall m :: j < m < |events| ==> !Misses(events[m], k)
  }

  /** The latest successful discovery since the slice was last absent. */
  ghost predicate LatestDiscovery(events: seq<Event>, k: NamespacedName, j: int) {
    && 0 <= j < |events| && Discovers(events[j], k)
    && forall m :: j < m < |events| ==> !Discovers(events[m], k) && !Misses(events[m], k)
  }

  /** An endpoint of that discovery. */
  ghost predicate Offers(events: seq<Event>, k: NamespacedName, a: API) {
    exists j :: LatestDiscovery(events, k, j) && a in events[j].read.discovered.value
  }

  /** The cache has a key for exactly the slices that exist, with the endpoints of their latest
      discovery; if none succeeded, with no endpoints. */
  ghost predicate CacheMeans(cache: SliceCache, events: seq<Event>) {
    && (forall k :: k in cache <==> Exists(events, k))
    && (forall k, a :: k in cache && a in cache[k] <==> Offers(events, k, a))
  }

  lemma {:induction false} CacheIsHistory(states: seq<Pipeline>, events: seq<Event>, n: nat)
    requires Run(states, events) && n < |states|
    ensures CacheMeans(states[n].cache, events[..n])
  {
    if n > 0 {
      CacheIsHistory(states, events, n - 1);
      var past, e := events[..n - 1], events[n - 1];
      assert events[..n] == past + [e];
      assert Step(states[n - 1], e, states[n]);
      hide Run, CacheMeans;
      StepCacheMeans(states[n - 1], e, states[n], past);
    }
  }

  lemma StepCacheMeans(s: Pipeline, e: Event, s': Pipeline, past: seq<Event>)
    requires Step(s, e, s') && CacheMeans(s.cache, past)
    ensures CacheMeans(s'.cache, past + [e])
  {
    forall k
      ensures (k in s'.cache <==> Exists(past + [e], k)) && forall a :: k in s'.cache && a in s'.cache[k] <==>
                Offers(past + [e], k, a)
    {
      ExistsSnoc(past, e, k);
      OffersSnoc(past, e, k);
      hide Exists, Offers, NotificationStep, Probed;
    }
    hide Exists, Offers, Step;
  }

  lemma ExistsSnoc(past: seq<Event>, e: Event, k: NamespacedName)
    ensures Exists(past + [e], k) <==> Sees(e, k) || (Exists(past, k) && !Misses(e, k))
  {
    var events := past + [e];
    if Sees(e, k) {
      assert events[|past|] == e;
    } else if Exists(past, k) && !Misses(e, k) {
      var j :| 0 <= j < |past| && Sees(past[j], k) && forall m :: j < m < |past| ==> !Misses(past[m], k);
      assert Sees(events[j], k);
    }
    if j :| 0 <= j < |events| && Sees(events[j], k) && forall m :: j < m < |events| ==> !Misses(events[m], k) {
      assert events[|past|] == e;
      if j < |past| {
        assert Sees(past[j], k);
        assert forall m :: j < m < |past| ==> past[m] == events[m];
      }
    }
  }

  lemma OffersSnoc(past: seq<Event>, e: Event, k: NamespacedName)
    ensures forall a :: Offers(past + [e], k, a) <==>
                          if Discovers(e, k) then a in e.read.discovered.value else Offers(past, k, a) && !Misses(e, k)
    ensures forall a :: Offers(past, k, a) ==> Exists(past, k)
  {
    var events := past + [e];
    assert events[|past|] == e;
    assert forall j :: 0 <= j < |past| ==> events[j] == past[j];
    if Discovers(e, k) {
      assert LatestDiscovery(events, k, |past|);
    } else {
      assert forall j :: LatestDiscovery(events, k, j) <==> LatestDiscovery(past, k, j) && !Misses(e, k);
    }
  }

  /** End to end, over every run: once a notification has been processed and none is waiting, the
      known gateways are the addresses of the latest discoveries in the slices that exist. */
  lemma PipelineTracksDiscoveries(states: seq<Pipeline>, events: seq<Event>, n: nat, address: string)
    requires Run(states, events) && n < |states|
    requires states[n].delivered.Some? && states[n].slot.None?
    ensures states[n].clients.Valid()
    ensures address in states[n].clients.ready.Keys + states[n].clients.pending.Keys <==>
              exists k, a :: Offers(events[..n], k, a) && a.address == address
  {
    PipelineConserves(states, events, n);
    CacheIsHistory(states, events, n);
    var cache := states[n].cache;
    hide Run, Offers, Exists, Clients.Valid;
    if a :| a in Union(cache) && a.address == address {
      var k :| k in cache && a in cache[k];
      assert Offers(events[..n], k, a);
    }
    if k, a :| Offers(events[..n], k, a) && a.address == address {
      assert k in cache && a in cache[k];
      assert a in Union(cache);
    }
  }

  // ---------------------------------------------------------------- the manager's handlers

  predicate HasAddress(apis: seq<API>, address: string) {
    exists i :: 0 <= i < |apis| && apis[i].address == address
  }

  /** checkPendingGatewayClients: a pending gateway is ready if a client for it can be created. */
  method CheckPendingGatewayClients(pending: seq<API>, p: Probe) returns (turnedReady: seq<Client>)
    ensures forall c :: c in turnedReady <==> exists a :: a in pending && p.creatable(a) && c == ClientFor(a)
  {
    turnedReady := [];
    for i := 0 to |pending|
      invariant forall c :: c in turnedReady <==> exists a :: a in pending[..i] && p.creatable(a) && c == ClientFor(a)
    {
      assert pending[..i + 1] == pending[..i] + [pending[i]];
      if p.creatable(pending[i]) {
        turnedReady := turnedReady + [ClientFor(pending[i])];
      }
    }
    assert pending[..|pending|] == pending;
  }

  /** checkAlreadyExistingClients: an unready client without a pod reference cannot become pending. */
  method CheckAlreadyExistingClients(clients: seq<Client>, p: Probe) returns (turnedPending: seq<API>)
    ensures forall a :: a in turnedPending <==>
              exists c :: c in clients && TurnsPending(p, c) && a == API(c.url, c.podRef.value)
  {
    turnedPending := [];
    for i := 0 to |clients|
      invariant forall a :: a in turnedPending <==>
                  exists c :: c in clients[..i] && TurnsPending(p, c) && a == API(c.url, c.podRef.value)
    {
      assert clients[..i + 1] == clients[..i] + [clients[i]];
      if !p.isReady(clients[i]) {
        if clients[i].podRef.None? {
          continue;
        }
        turnedPending := turnedPending + [API(clients[i].url, clients[i].podRef.value)];
      }
    }
    assert clients[..|clients|] == clients;
  }

  class AdminAPIClientsManager {
    var ready: map<string, Client>
    var pending: map<string, API>
    /** How many signals each subscriber has been sent. */
    var signals: seq<nat>

    ghost function Current(): Clients
      reads this
    {
      Clients(ready, pending)
    }

    /** adjustGatewayClients */
    method AdjustGatewayClients(discovered: seq<API>) returns (changed: bool)
      requires Current().Valid()
      modifies this`ready, this`pending
      ensures Adjusts(old(Current()), Elements(discovered), Current(), changed)
    {
      if |discovered| == 0 {
        assert Addresses(Elements(discovered)) == {};
        if |ready| == 0 && |pending| == 0 {
          return false;
        }
        assert old(Current()).Known() != {} by {
          if ready.Keys != {} { var k :| k in ready; } else { assert pending.Keys != {}; var k :| k in pending; }
        }
        ready, pending := map[], map[];
        return true;
      }
      ghost var addresses := Addresses(Elements(discovered));
      forall x ensures HasAddress(discovered, x) <==> x in addresses {
        if HasAddress(discovered, x) {
          var i :| 0 <= i < |discovered| && discovered[i].address == x;
          assert discovered[i] in Elements(discovered);
        }
      }
      AddPending(discovered);
      var readyRemoved := RemoveUndiscoveredReady(discovered, addresses);
      var pendingRemoved := RemoveUndiscoveredPending(discovered, addresses);
      changed := readyRemoved || pendingRemoved;
    }

    /** Remove ready clients that are not in the discovered list. */
    method RemoveUndiscoveredReady(discovered: seq<API>, ghost addresses: set<string>) returns (removed: bool)
      requires forall x :: HasAddress(discovered, x) <==> x in addresses
      requires forall k :: k in ready ==> ready[k].url == k
      modifies this`ready
      ensures ready == map k | k in old(ready) && k in addresses :: old(ready)[k]
      ensures removed <==> exists k :: k in old(ready) && k !in addresses
    {
      removed := false;
      var keys := ready.Keys;
      while keys != {}
        invariant keys <= old(ready.Keys)
        invariant ready == map k | k in old(ready) && (k in keys || k in addresses) :: old(ready)[k]
        invariant removed <==> exists k :: k in old(ready) && k !in keys && k !in addresses
        decreases keys
      {
        var k :| k in keys;
        if !HasAddress(discovered, ready[k].url) {
          ready := ready - {ready[k].url};
          removed := true;
        }
        keys := keys - {k};
      }
    }

    /** Make sure every discovered gateway that is not ready is pending. */
    method AddPending(discovered: seq<API>)
      requires Current().Valid()
      modifies this`pending
      ensures pending.Keys == old(pending.Keys) + (Addresses(Elements(discovered)) - ready.Keys)
      ensures forall k :: k in pending && k in Addresses(Elements(discovered)) ==>
                pending[k] in Elements(discovered) && pending[k].address == k
      ensures forall k :: k in pending ==> pending[k].address == k
    {
      for i := 0 to |discovered|
        invariant forall k :: k in pending <==>
                    k in old(pending) || (k !in ready && exists j :: 0 <= j < i && discovered[j].address == k)
        invariant forall k :: k in pending ==> pending[k].address == k
        invariant forall k, j :: k in pending && 0 <= j < i && discovered[j].address == k ==>
                    pending[k] in Elements(discovered)
      {
        var d := discovered[i];
        if d.address !in ready {
          pending := pending[d.address := d];
        }
      }
      forall k
        ensures k in Addresses(Elements(discovered)) <==>
                  exists j :: 0 <= j < |discovered| && discovered[j].address == k
      {
        if j :| 0 <= j < |discovered| && discovered[j].address == k {
          assert discovered[j] in Elements(discovered);
        }
      }
    }

    /** Remove pending gateways that are not in the discovered list. */
    method RemoveUndiscoveredPending(discovered: seq<API>, ghost addresses: set<string>) returns (removed: bool)
      requires forall x :: HasAddress(discovered, x) <==> x in addresses
      requires forall k :: k in pending ==> pending[k].address == k
      modifies this`pending
      ensures pending == map k | k in old(pending) && k in addresses :: old(pending)[k]
      ensures removed <==> exists k :: k in old(pending) && k !in addresses
    {
      removed := false;
      var keys := pending.Keys;
      while keys != {}
        invariant keys <= old(pending.Keys)
        invariant pending == map k | k in old(pending) && (k in keys || k in addresses) :: old(pending)[k]
        invariant removed <==> exists k :: k in old(pending) && k !in keys && k !in addresses
        decreases keys
      {
        var k :| k in keys;
        if !HasAddress(discovered, pending[k].address) {
          pending := pending - {pending[k].address};
          removed := true;
        }
        keys := keys - {k};
      }
    }

    /** reconcileGatewayClientsReadiness */
    method ReconcileGatewayClientsReadiness(p: Probe) returns (changed: bool)
      requires Current().Valid()
      modifies this`ready, this`pending
      ensures Current() == Probed(old(Current()), p)
      ensures changed <==> ProbeChanges(old(Current()), p)
    {
      if |ready| == 0 && |pending| == 0 {
        assert ready == map[] && pending == map[];
        return false;
      }
      var readyList := UnsortedList(ready.Values);
      var pendingList := UnsortedList(pending.Values);
      var turnedReady := CheckPendingGatewayClients(pendingList, p);
      var turnedPending := CheckAlreadyExistingClients(readyList, p);
      TurnedMeans(Current(), p, turnedReady, turnedPending);
      MoveToReady(turnedReady);
      MoveToPending(turnedPending);
      changed := |turnedReady| > 0 || |turnedPending| > 0;
      MovesAreProbed(old(Current()), p, turnedReady, turnedPending);
    }

    method MoveToReady(turned: seq<Client>)
      modifies this`ready, this`pending
      ensures Current() == AfterReady(old(Current()), turned)
    {
      for i := 0 to |turned|
        invariant Current() == AfterReady(old(Current()), turned[..i])
      {
        assert turned[..i + 1][..i] == turned[..i];
        pending := pending - {turned[i].url};
        ready := ready[turned[i].url := turned[i]];
      }
      assert turned[..|turned|] == turned;
    }

    method MoveToPending(turned: seq<API>)
      modifies this`ready, this`pending
      ensures Current() == AfterPending(old(Current()), turned)
    {
      for i := 0 to |turned|
        invariant Current() == AfterPending(old(Current()), turned[..i])
      {
        assert turned[..i + 1][..i] == turned[..i];
        ready := ready - {turned[i].address};
        pending := pending[turned[i].address := turned[i]];
      }
      assert turned[..|turned|] == turned;
    }

    /** notifyGatewayClientsSubscribers: one signal to each subscriber. */
    method NotifyGatewayClientsSubscribers()
      modifies this`signals
      ensures signals == OneMore(old(signals))
    {
      for i := 0 to |signals|
        invariant |signals| == |old(signals)|
        invariant forall j :: 0 <= j < |signals| ==> signals[j] == old(signals)[j] + (if j < i then 1 else 0)
      {
        signals := signals[i := signals[i] + 1];
      }
    }

    /** onDiscoveredAdminAPIsNotification */
    method OnDiscoveredAdminAPIsNotification(discovered: seq<API>, p: Probe)
      requires Current().Valid()
      modifies this
      ensures Current().Valid() && Current().Known() == Addresses(Elements(discovered))
      ensures exists signal :: NotificationStep(old(Current()), Elements(discovered), p, Current(), signal)
      ensures signals == if !(old(Current()).Known() <= Current().Known()) || ready.Keys != old(ready.Keys)
                then OneMore(old(signals)) else old(signals)
    {
      hide Adjusts, Probed, ProbeChanges, Clients.Valid;
      var clientsChanged := AdjustGatewayClients(discovered);
      ghost var mid := Current();
      AdjustConserves(old(Current()), Elements(discovered), mid, clientsChanged);
      var readinessChanged := ReconcileGatewayClientsReadiness(p);
      if clientsChanged || readinessChanged {
        NotifyGatewayClientsSubscribers();
      }
      assert NotificationStep(old(Current()), Elements(discovered), p, Current(), clientsChanged || readinessChanged);
      SignalExactly(old(Current()), Elements(discovered), p, Current(), clientsChanged || readinessChanged);
    }

    /** onReadinessReconciliationTick */
    method OnReadinessReconciliationTick(p: Probe)
      requires Current().Valid()
      modifies this
      ensures Current() == Probed(old(Current()), p) && Current().Valid()
      ensures signals == if ready.Keys != old(ready.Keys) then OneMore(old(signals)) else old(signals)
    {
      var changed := ReconcileGatewayClientsReadiness(p);
      if changed {
        NotifyGatewayClientsSubscribers();
      }
      ProbeConserves(old(Current()), p);
    }
  }

  function OneMore(signals: seq<nat>): seq<nat> {
    seq(|signals|, i requires 0 <= i < |signals| => signals[i] + 1)
  }

  function AfterReady(c: Clients, turned: seq<Client>): Clients {
    if turned == [] then c else
      var init, last := AfterReady(c, turned[..|turned| - 1]), turned[|turned| - 1];
      Clients(init.ready[last.url := last], init.pending - {last.url})
  }

  function AfterPending(c: Clients, turned: seq<API>): Clients {
    if turned == [] then c else
      var init, last := AfterPending(c, turned[..|turned| - 1]), turned[|turned| - 1];
      Clients(init.ready - {last.address}, init.pending[last.address := last])
  }

  /** The two lists of a readiness check, for the maps they were computed from. */
  ghost predicate Turned(c: Clients, p: Probe, turnedReady: seq<Client>, turnedPending: seq<API>) {
    && (forall x :: x in turnedReady <==>
          x.url in c.pending && p.creatable(c.pending[x.url]) && x == ClientFor(c.pending[x.url]))
    && (forall a :: a in turnedPending <==>
          a.address in c.ready && TurnsPending(p, c.ready[a.address])
            && a == API(c.ready[a.address].url, c.ready[a.address].podRef.value))
  }

  lemma TurnedMeans(c: Clients, p: Probe, turnedReady: seq<Client>, turnedPending: seq<API>)
    requires c.Valid()
    requires forall x :: x in turnedReady <==> exists a :: a in c.pending.Values && p.creatable(a) && x == ClientFor(a)
    requires forall a :: a in turnedPending <==>
               exists x :: x in c.ready.Values && TurnsPending(p, x) && a == API(x.url, x.podRef.value)
    ensures Turned(c, p, turnedReady, turnedPending)
  {
    forall x
      ensures x in turnedReady <==>
                x.url in c.pending && p.creatable(c.pending[x.url]) && x == ClientFor(c.pending[x.url])
    {
      if x.url in c.pending {
        assert c.pending[x.url] in c.pending.Values;
      }
    }
    forall a ensures a in turnedPending <==>
        a.address in c.ready && TurnsPending(p, c.ready[a.address])
          && a == API(c.ready[a.address].url, c.ready[a.address].podRef.value) {
      if a.address in c.ready {
        assert c.ready[a.address] in c.ready.Values;
      }
    }
  }

  predicate Mentions(turned: seq<Client>, k: string) {
    exists i :: 0 <= i < |turned| && turned[i].url == k
  }

  lemma {:induction false} AfterReadyAt(c: Clients, turned: seq<Client>, k: string)
    ensures var c' := AfterReady(c, turned);
            if Mentions(turned, k) then
              k in c'.ready && c'.ready[k] in turned && c'.ready[k].url == k && k !in c'.pending
            else
              && (k in c'.ready <==> k in c.ready) && (k in c.ready ==> c'.ready[k] == c.ready[k])
              && (k in c'.pending <==> k in c.pending) && (k in c.pending ==> c'.pending[k] == c.pending[k])
  {
    if turned != [] {
      var init := turned[..|turned| - 1];
      AfterReadyAt(c, init, k);
      assert turned == init + [turned[|turned| - 1]];
      assert Mentions(turned, k) <==> Mentions(init, k) || turned[|turned| - 1].url == k by {
        if i :| 0 <= i < |init| && init[i].url == k {
          assert turned[i].url == k;
        }
      }
    }
  }

  lemma {:induction false} AfterPendingAt(c: Clients, turned: seq<API>, k: string)
    ensures var c' := AfterPending(c, turned);
            if HasAddress(turned, k) then
              k in c'.pending && c'.pending[k] in turned && c'.pending[k].address == k && k !in c'.ready
            else
              && (k in c'.ready <==> k in c.ready) && (k in c.ready ==> c'.ready[k] == c.ready[k])
              && (k in c'.pending <==> k in c.pending) && (k in c.pending ==> c'.pending[k] == c.pending[k])
  {
    if turned != [] {
      var init := turned[..|turned| - 1];
      AfterPendingAt(c, init, k);
      assert turned == init + [turned[|turned| - 1]];
      assert HasAddress(turned, k) <==> HasAddress(init, k) || turned[|turned| - 1].address == k by {
        if i :| 0 <= i < |init| && init[i].address == k {
          assert turned[i].address == k;
        }
      }
    }
  }

  /** Moving the two lists one by one gives the maps the readiness answers call for. */
  lemma MovesAreProbed(c: Clients, p: Probe, turnedReady: seq<Client>, turnedPending: seq<API>)
    requires c.Valid() && Turned(c, p, turnedReady, turnedPending)
    ensures AfterPending(AfterReady(c, turnedReady), turnedPending) == Probed(c, p)
    ensures |turnedReady| > 0 || |turnedPending| > 0 <==> ProbeChanges(c, p)
  {
    var moved, probed := AfterPending(AfterReady(c, turnedReady), turnedPending), Probed(c, p);
    forall k
      ensures (k in moved.ready <==> k in probed.ready) && (k in moved.ready ==> moved.ready[k] == probed.ready[k])
      ensures (k in moved.pending <==> k in probed.pending)
      ensures (k in moved.pending ==> moved.pending[k] == probed.pending[k])
    {
      MoveAt(c, p, turnedReady, turnedPending, k);
    }
    assert moved.ready == probed.ready && moved.pending == probed.pending;
    TurnedNonempty(c, p, turnedReady, turnedPending);
  }

  lemma MoveAt(c: Clients, p: Probe, turnedReady: seq<Client>, turnedPending: seq<API>, k: string)
    requires c.Valid() && Turned(c, p, turnedReady, turnedPending)
    ensures var moved, probed := AfterPending(AfterReady(c, turnedReady), turnedPending), Probed(c, p);
            && (k in moved.ready <==> k in probed.ready) && (k in moved.ready ==> moved.ready[k] == probed.ready[k])
            && (k in moved.pending <==> k in probed.pending)
                  && (k in moved.pending ==> moved.pending[k] == probed.pending[k])
  {
    AfterReadyAt(c, turnedReady, k);
    AfterPendingAt(AfterReady(c, turnedReady), turnedPending, k);
    TurnedAt(c, p, turnedReady, turnedPending, k);
  }

  lemma TurnedAt(c: Clients, p: Probe, turnedReady: seq<Client>, turnedPending: seq<API>, k: string)
    requires c.Valid() && Turned(c, p, turnedReady, turnedPending)
    ensures Mentions(turnedReady, k) <==> k in c.pending && p.creatable(c.pending[k])
    ensures HasAddress(turnedPending, k) <==> k in c.ready && TurnsPending(p, c.ready[k])
  {
    if i :| 0 <= i < |turnedReady| && turnedReady[i].url == k {
      assert turnedReady[i] in turnedReady;
    }
    if k in c.pending && p.creatable(c.pending[k]) {
      assert ClientFor(c.pending[k]).url == k;
      assert ClientFor(c.pending[k]) in turnedReady;
    }
    if i :| 0 <= i < |turnedPending| && turnedPending[i].address == k {
      assert turnedPending[i] in turnedPending;
    }
    if k in c.ready && TurnsPending(p, c.ready[k]) {
      assert API(c.ready[k].url, c.ready[k].podRef.value).address == k;
      assert API(c.ready[k].url, c.ready[k].podRef.value) in turnedPending;
    }
  }

  lemma TurnedNonempty(c: Clients, p: Probe, turnedReady: seq<Client>, turnedPending: seq<API>)
    requires c.Valid() && Turned(c, p, turnedReady, turnedPending)
    ensures |turnedReady| > 0 || |turnedPending| > 0 <==> ProbeChanges(c, p)
  {
    hide Turned, Clients.Valid;
    forall k ensures Mentions(turnedReady, k) <==> k in c.pending && p.creatable(c.pending[k])
      ensures HasAddress(turnedPending, k) <==> k in c.ready && TurnsPending(p, c.ready[k])
    {
      TurnedAt(c, p, turnedReady, turnedPending, k);
    }
    if |turnedReady| > 0 {
      assert Mentions(turnedReady, turnedReady[0].url);
    }
    if |turnedPending| > 0 {
      assert HasAddress(turnedPending, turnedPending[0].address);
    }
    if k :| k in c.ready && TurnsPending(p, c.ready[k]) {
      assert HasAddress(turnedPending, k);
    }
    if k :| k in c.pending && p.creatable(c.pending[k]) {
      assert Mentions(turnedReady, k);
    }
  }
}
