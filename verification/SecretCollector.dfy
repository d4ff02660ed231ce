/**
 Secrets enter the object cache because some object refers to them and leave it when the last
 reference record is gone. Every read of a secret from the cluster may find it, not find it, or
 fail; each secret is read at most once per operation, so the answers are a function of its name.
 */
module SecretCollector {
  import opened Common
  import opened ReferenceIndexer

  datatype Secret = Secret(caCert: bool, data: string)

  datatype Read = Found(secret: Secret) | NotFound | Failed

  type Answers = NamespacedName -> Read

  const SECRET := GVK("", "v1", "Secret")

  function SecretObject(nn: NamespacedName): Object {
    Object(SECRET, nn.namespace, nn.name)
  }

  function NameOf(o: Object): NamespacedName {
    NamespacedName(o.namespace, o.name)
  }

  /** The records and the cached secrets. */
  datatype State = State(refs: set<Ref>, cache: map<NamespacedName, Secret>)

  predicate Referred(refs: set<Ref>, nn: NamespacedName) {
    exists r :: r in refs && r.referent == SecretObject(nn)
  }

  predicate ReferredByOther(refs: set<Ref>, referrer: Object, nn: NamespacedName) {
    exists r :: r in refs && r.referent == SecretObject(nn) && r.referrer != referrer
  }

  function RefsTo(referrer: Object, names: set<NamespacedName>): set<Ref> {
    set nn | nn in names :: Ref(referrer, SecretObject(nn))
  }

  predicate IsCA(r: Read) {
    r.Found? && r.secret.caCert
  }

  /** Secrets the referrer has a record for and no longer asks for. */
  function Outdated(refs: set<Ref>, referrer: Object, requested: set<NamespacedName>): set<NamespacedName> {
    set r | r in refs && r.referrer == referrer && r.referent.gvk == SECRET
      && NameOf(r.referent) !in requested :: NameOf(r.referent)
  }

  // ---------------------------------------------------------------- what the operations do

  /** Records and cache entries for the secrets in names, all of them found. */
  function Adopted(s: State, referrer: Object, names: set<NamespacedName>, answers: Answers): State
    requires forall nn :: nn in names ==> answers(nn).Found?
  {
    State(s.refs + RefsTo(referrer, names), s.cache + map nn | nn in names :: answers(nn).secret)
  }

  /** Records dropped for the secrets in names; a secret goes unless it is a CA or referred elsewhere. */
  function Released(s: State, referrer: Object, names: set<NamespacedName>, answers: Answers): State {
    State(s.refs - RefsTo(referrer, names),
          map nn | nn in s.cache
            && !(nn in names && !IsCA(answers(nn)) && !ReferredByOther(s.refs, referrer, nn)) :: s.cache[nn])
  }

  /** A failed read drops the record of that secret and leaves its cache entry. */
  function Abandoned(s: State, referrer: Object, nn: NamespacedName): State {
    s.(refs := s.refs - RefsTo(referrer, {nn}))
  }

  /** The removal loop has released the secrets in done when reading bad fails; the error is swallowed. */
  ghost predicate StoppedAt(s: State, referrer: Object, requested: set<NamespacedName>, answers: Answers, s': State,
                            done: set<NamespacedName>, bad: NamespacedName) {
    var outdated := Outdated(s.refs, referrer, requested);
    && done <= outdated && bad in outdated && bad !in done && answers(bad).Failed?
    && (forall nn :: nn in done ==> !answers(nn).Failed?)
    && s' == Abandoned(Released(s, referrer, done, answers), referrer, bad)
  }

  /** removeOutdatedReferencesToSecret: all outdated records go, or a failed read ends the loop early. */
  ghost predicate RemovalStep(s: State, referrer: Object, requested: set<NamespacedName>, answers: Answers, s': State) {
    var outdated := Outdated(s.refs, referrer, requested);
    || ((forall nn :: nn in outdated ==> !answers(nn).Failed?) && s' == Released(s, referrer, outdated, answers))
    || exists done, bad :: StoppedAt(s, referrer, requested, answers, s', done, bad)
  }

  /** The adoption loop has adopted the secrets in done when bad cannot be read; its record stays. */
  ghost predicate RejectedAt(s: State, referrer: Object, requested: set<NamespacedName>, answers: Answers, s': State,
                             done: set<NamespacedName>, bad: NamespacedName) {
    && done <= requested && bad in requested && bad !in done && !answers(bad).Found?
    && (forall nn :: nn in done ==> answers(nn).Found?)
    && s' == Adopted(s, referrer, done, answers).(refs := s.refs + RefsTo(referrer, done + {bad}))
  }

  /** UpdateReferencesToSecret */
  ghost predicate UpdateStep(s: State, referrer: Object, requested: set<NamespacedName>, answers: Answers, s': State,
                             ok: bool) {
    if ok then
      (forall nn :: nn in requested ==> answers(nn).Found?)
      && RemovalStep(Adopted(s, referrer, requested, answers), referrer, requested, answers, s')
    else
      exists done, bad :: RejectedAt(s, referrer, requested, answers, s', done, bad)
  }

  function RefsBy(refs: set<Ref>, referrer: Object): set<Ref> {
    set r | r in refs && r.referrer == referrer
  }

  /** DeleteReferencesByReferrer: no label is looked at. */
  function Forgotten(s: State, referrer: Object): State {
    State(s.refs - RefsBy(s.refs, referrer),
          map nn | nn in s.cache
            && !(Ref(referrer, SecretObject(nn)) in s.refs && !ReferredByOther(s.refs, referrer, nn)) :: s.cache[nn])
  }

  // ---------------------------------------------------------------- one successful update

  /** After a successful update that could read what it drops, the referrer's records are the requested ones,
      nobody else's record changed, requested secrets are cached as read, and a dropped secret has
      left the cache exactly when nothing refers to it and it is not labelled as a CA. */
  lemma UpdateOutcome(s: State, referrer: Object, requested: set<NamespacedName>, answers: Answers, s': State)
    requires UpdateStep(s, referrer, requested, answers, s', true)
    requires forall nn :: Ref(referrer, SecretObject(nn)) in s.refs && nn !in requested ==> !answers(nn).Failed?
    ensures forall nn :: Ref(referrer, SecretObject(nn)) in s'.refs <==> nn in requested
    ensures forall r: Ref :: r.referrer != referrer || r.referent.gvk != SECRET ==> (r in s'.refs <==> r in s.refs)
    ensures forall nn :: nn in requested ==> nn in s'.cache && s'.cache[nn] == answers(nn).secret
    ensures forall nn :: nn in s.cache && nn !in requested ==>
              (nn !in s'.cache <==>
                Ref(referrer, SecretObject(nn)) in s.refs && !Referred(s'.refs, nn)
                && !(answers(nn).Found? && answers(nn).secret.caCert))
              && (nn in s'.cache ==> s'.cache[nn] == s.cache[nn])
    ensures forall nn :: nn in s'.cache ==> nn in s.cache || nn in requested
  {
    var mid := Adopted(s, referrer, requested, answers);
    var outdated := Outdated(mid.refs, referrer, requested);
    forall nn ensures nn in outdated <==> Ref(referrer, SecretObject(nn)) in s.refs && nn !in requested {
      OutdatedMember(s, referrer, requested, answers, nn);
    }
    assert s' == Released(mid, referrer, outdated, answers);
    forall nn | nn !in requested
      ensures ReferredByOther(mid.refs, referrer, nn) <==> Referred(s'.refs, nn)
    {
      if r :| r in mid.refs && r.referent == SecretObject(nn) && r.referrer != referrer {
        assert r in s'.refs;
      }
      if r :| r in s'.refs && r.referent == SecretObject(nn) {
        assert r.referrer != referrer;
      }
    }
  }

  /** A failed update loses nothing: it stopped at a requested secret that could not be read, whose
      record stays; every other record it made is for a requested secret it has cached as read. */
  lemma RejectedOutcome(s: State, referrer: Object, requested: set<NamespacedName>, answers: Answers, s': State)
    requires UpdateStep(s, referrer, requested, answers, s', false)
    ensures s.refs <= s'.refs && s.cache.Keys <= s'.cache.Keys
    ensures exists bad :: bad in requested && !answers(bad).Found? && Ref(referrer, SecretObject(bad)) in s'.refs
                          && forall r :: r in s'.refs && r !in s.refs ==> exists nn ::
                               && r == Ref(referrer, SecretObject(nn)) && nn in requested
                               && (nn == bad
                                     || (answers(nn).Found? && nn in s'.cache && s'.cache[nn] == answers(nn).secret))
    ensures forall nn :: nn in s'.cache ==>
              (nn in s.cache && s'.cache[nn] == s.cache[nn])
              || (nn in requested && answers(nn).Found? && s'.cache[nn] == answers(nn).secret)
  {
    var done, bad :| RejectedAt(s, referrer, requested, answers, s', done, bad);
    assert Ref(referrer, SecretObject(bad)) in RefsTo(referrer, done + {bad});
    forall r | r in s'.refs && r !in s.refs
      ensures exists nn :: r == Ref(referrer, SecretObject(nn)) && nn in requested
                && (nn == bad || (answers(nn).Found? && nn in s'.cache && s'.cache[nn] == answers(nn).secret))
    {
      var nn :| nn in done + {bad} && r == Ref(referrer, SecretObject(nn));
    }
  }

  /** A deleted referrer: exactly its records go, and of the secrets it referred to those that
      nothing refers to any more. */
  lemma DeletionOutcome(s: State, referrer: Object, s': State)
    requires Step(s, DeleteReferrer(referrer), s')
    ensures forall r :: r in s'.refs <==> r in s.refs && r.referrer != referrer
    ensures forall nn :: nn in s'.cache ==> nn in s.cache && s'.cache[nn] == s.cache[nn]
    ensures forall nn :: nn in s.cache ==>
              (nn !in s'.cache <==> Ref(referrer, SecretObject(nn)) in s.refs && !Referred(s'.refs, nn))
  {
    forall nn ensures ReferredByOther(s.refs, referrer, nn) <==> Referred(s'.refs, nn) {
      if r :| r in s.refs && r.referent == SecretObject(nn) && r.referrer != referrer {
        assert r in s'.refs;
      }
    }
  }

  lemma OutdatedMember(s: State, referrer: Object, requested: set<NamespacedName>, answers: Answers, nn: NamespacedName)
    requires forall n :: n in requested ==> answers(n).Found?
    ensures nn in Outdated(Adopted(s, referrer, requested, answers).refs, referrer, requested) <==>
              Ref(referrer, SecretObject(nn)) in s.refs && nn !in requested
  {
    var mid := Adopted(s, referrer, requested, answers);
    if Ref(referrer, SecretObject(nn)) in s.refs && nn !in requested {
      var r := Ref(referrer, SecretObject(nn));
      assert r in mid.refs && NameOf(r.referent) == nn;
    }
  }

  // ---------------------------------------------------------------- whole runs

  datatype Event =
    | Update(referrer: Object, requested: set<NamespacedName>, answers: Answers, ok: bool)
    | DeleteReferrer(referrer: Object)

  ghost predicate Step(s: State, e: Event, s': State) {
    match e
    case Update(referrer, requested, answers, ok) => UpdateStep(s, referrer, requested, answers, s', ok)
    case DeleteReferrer(referrer) => s' == Forgotten(s, referrer)
  }

  ghost predicate Run(states: seq<State>, events: seq<Event>) {
    && |states| == |events| + 1
    && states[0] == State({}, map[])
    && forall i :: 0 <= i < |events| ==> Step(states[i], events[i], states[i + 1])
  }

  /** Safety of every step: a secret that leaves the cache has no record left. */
  lemma EvictedOnlyUnreferred(s: State, e: Event, s': State, nn: NamespacedName)
    requires Step(s, e, s') && nn in s.cache && nn !in s'.cache
    ensures !Referred(s'.refs, nn)
  {
    match e
    case DeleteReferrer(referrer) =>
    case Update(referrer, requested, answers, ok) =>
      if ok {
        var mid := Adopted(s, referrer, requested, answers);
        var outdated := Outdated(mid.refs, referrer, requested);
        if !(s' == Released(mid, referrer, outdated, answers)) {
          var done, bad :| StoppedAt(mid, referrer, requested, answers, s', done, bad);
          assert nn in done;
        }
      }
  }

  /** Once nothing refers to it, a secret is still cached exactly if it was before and, in case the
      update dropped its last record, it carried the CA label or could not be read. */
  lemma UpdateKeepsExactly(s: State, referrer: Object, requested: set<NamespacedName>, answers: Answers, s': State,
                           ok: bool, nn: NamespacedName)
    requires UpdateStep(s, referrer, requested, answers, s', ok) && !Referred(s'.refs, nn)
    ensures nn in s'.cache <==>
              nn in s.cache
              && (Referred(s.refs, nn) ==>
                    ok && Ref(referrer, SecretObject(nn)) in s.refs && (IsCA(answers(nn)) || answers(nn).Failed?))
  {
    if ok {
      var mid := Adopted(s, referrer, requested, answers);
      OutdatedMember(s, referrer, requested, answers, nn);
      assert forall n :: n in requested ==> Ref(referrer, SecretObject(n)) in mid.refs;
      RemovalKeepsExactly(mid, referrer, requested, answers, s', nn);
      hide RemovalStep;
      assert nn !in requested by {
        assert Ref(referrer, SecretObject(nn)) in s'.refs || nn !in requested;
      }
      AdoptedElsewhere(s, referrer, requested, answers, nn);
    } else {
      var done, bad :| RejectedAt(s, referrer, requested, answers, s', done, bad);
      assert s.refs <= s'.refs;
      assert forall n :: n in done ==> Ref(referrer, SecretObject(n)) in s'.refs && Referred(s'.refs, n);
    }
  }

  /** Adopting other secrets changes nothing for nn. */
  lemma AdoptedElsewhere(s: State, referrer: Object, names: set<NamespacedName>, answers: Answers, nn: NamespacedName)
    requires (forall n :: n in names ==> answers(n).Found?) && nn !in names
    ensures var mid := Adopted(s, referrer, names, answers);
            && (nn in mid.cache <==> nn in s.cache)
            && (Referred(mid.refs, nn) <==> Referred(s.refs, nn))
            && (Ref(referrer, SecretObject(nn)) in mid.refs <==> Ref(referrer, SecretObject(nn)) in s.refs)
  {
    var mid := Adopted(s, referrer, names, answers);
    assert forall r :: r in mid.refs && r.referent == SecretObject(nn) ==> r in s.refs;
    assert forall r :: r in s.refs ==> r in mid.refs;
  }

  lemma RemovalKeepsExactly(s: State, referrer: Object, requested: set<NamespacedName>, answers: Answers, s': State,
                            nn: NamespacedName)
    requires RemovalStep(s, referrer, requested, answers, s')
    ensures nn in requested && Ref(referrer, SecretObject(nn)) in s.refs ==> Ref(referrer, SecretObject(nn)) in s'.refs
    ensures !Referred(s'.refs, nn) ==>
              (nn in s'.cache <==>
                 nn in s.cache
                 && (Referred(s.refs, nn) ==>
                       Ref(referrer, SecretObject(nn)) in s.refs && (IsCA(answers(nn)) || answers(nn).Failed?)))
  {
    var outdated := Outdated(s.refs, referrer, requested);
    assert nn in outdated ==> Ref(referrer, SecretObject(nn)) in s.refs;
    if !((forall n :: n in outdated ==> !answers(n).Failed?) && s' == Released(s, referrer, outdated, answers)) {
      var done, bad :| StoppedAt(s, referrer, requested, answers, s', done, bad);
      DroppedOnly(s, referrer, done + {bad}, s'.refs, nn);
    } else {
      DroppedOnly(s, referrer, outdated, s'.refs, nn);
    }
  }

  /** If the last record of nn went with the referrer's records of names, it was the referrer's. */
  lemma DroppedOnly(s: State, referrer: Object, names: set<NamespacedName>, after: set<Ref>, nn: NamespacedName)
    requires after == s.refs - RefsTo(referrer, names)
    ensures Referred(s.refs, nn) && !Referred(after, nn) ==>
              nn in names && Ref(referrer, SecretObject(nn)) in s.refs && !ReferredByOther(s.refs, referrer, nn)
    ensures nn !in names ==> (Ref(referrer, SecretObject(nn)) in after <==> Ref(referrer, SecretObject(nn)) in s.refs)
  {
    assert forall r :: r in s.refs && r !in after ==> exists n :: n in names && r == Ref(referrer, SecretObject(n));
  }

  lemma ForgottenKeepsExactly(s: State, referrer: Object, nn: NamespacedName)
    requires !Referred(Forgotten(s, referrer).refs, nn)
    ensures nn in Forgotten(s, referrer).cache <==> nn in s.cache && !Referred(s.refs, nn)
  {
    var s' := Forgotten(s, referrer);
    assert forall r :: r in s.refs && r.referrer != referrer ==> r in s'.refs;
    if Referred(s.refs, nn) {
      var r :| r in s.refs && r.referent == SecretObject(nn);
      assert r == Ref(referrer, SecretObject(nn));
    }
  }

  /** The secret was read and carries the label of a CA certificate. */
  ghost predicate CarriesLabel(r: Read) {
    exists data :: r == Found(Secret(true, data))
  }

  lemma CAMeans(r: Read)
    ensures IsCA(r) <==> CarriesLabel(r)
  {
    if IsCA(r) {
      assert r == Found(Secret(true, r.secret.data));
    }
  }

  /** Event j was an update that dropped a record of nn and kept nn: a CA, or its read failed. */
  ghost predicate DroppedYetKept(states: seq<State>, events: seq<Event>, j: nat, nn: NamespacedName)
    requires |states| == |events| + 1 && j < |events|
  {
    && events[j].Update? && events[j].ok && nn in states[j].cache
    && Ref(events[j].referrer, SecretObject(nn)) in states[j].refs
    && (CarriesLabel(events[j].answers(nn)) || events[j].answers(nn).Failed?)
  }

  ghost predicate UnreferredSince(states: seq<State>, j: nat, k: nat, nn: NamespacedName)
    requires k < |states|
  {
    forall m :: j < m <= k ==> !Referred(states[m].refs, nn)
  }

  lemma StepKeepsExactly(s: State, e: Event, s': State, nn: NamespacedName)
    requires Step(s, e, s') && !Referred(s'.refs, nn)
    ensures nn in s'.cache <==>
              nn in s.cache
              && (Referred(s.refs, nn) ==>
                    e.Update? && e.ok && Ref(e.referrer, SecretObject(nn)) in s.refs
                      && (CarriesLabel(e.answers(nn)) || e.answers(nn).Failed?))
  {
    hide UpdateStep, Referred, Forgotten;
    if e.Update? {
      CAMeans(e.answers(nn));
    }
    match e {
      case Update(referrer, requested, answers, ok) => UpdateKeepsExactly(s, referrer, requested, answers, s', ok, nn);
      case DeleteReferrer(referrer) => ForgottenKeepsExactly(s, referrer, nn);
    }
  }

  /** Over every run, whatever reads fail: a secret is cached without a record exactly if an update
      dropped its last record while it carried the CA label or could not be read, and it has had no record since. */
  lemma {:induction false} UnreferredCachedExactly(states: seq<State>, events: seq<Event>, k: nat, nn: NamespacedName)
    requires Run(states, events) && k < |states|
    ensures nn in states[k].cache && !Referred(states[k].refs, nn) <==>
              exists j :: 0 <= j < k && DroppedYetKept(states, events, j, nn) && UnreferredSince(states, j, k, nn)
  {
    hide Referred, Step, CarriesLabel;
    if k > 0 && !Referred(states[k].refs, nn) {
      UnreferredCachedExactly(states, events, k - 1, nn);
      assert Step(states[k - 1], events[k - 1], states[k]);
      StepKeepsExactly(states[k - 1], events[k - 1], states[k], nn);
      if nn in states[k].cache && Referred(states[k - 1].refs, nn) {
        assert DroppedYetKept(states, events, k - 1, nn) && UnreferredSince(states, k - 1, k, nn);
      } else if nn in states[k].cache {
        var j :| 0 <= j < k - 1 && DroppedYetKept(states, events, j, nn) && UnreferredSince(states, j, k - 1, nn);
        assert UnreferredSince(states, j, k, nn);
      }
      if j :| 0 <= j < k && DroppedYetKept(states, events, j, nn) && UnreferredSince(states, j, k, nn) {
        if j < k - 1 {
          assert UnreferredSince(states, j, k - 1, nn);
        }
      }
    }
  }

  /** No leak: if no read of the secret itself ever fails, a cached secret has a record, or an update
      dropped its last record while it carried the CA label and it has had no record since. */
  lemma NothingLeaks(states: seq<State>, events: seq<Event>, k: nat, nn: NamespacedName)
    requires Run(states, events) && k < |states|
    requires forall i :: 0 <= i < |events| && events[i].Update? ==> !events[i].answers(nn).Failed?
    requires nn in states[k].cache
    ensures Referred(states[k].refs, nn)
            || exists j :: 0 <= j < k && DroppedYetKept(states, events, j, nn) && CarriesLabel(events[j].answers(nn))
                  && UnreferredSince(states, j, k, nn)
  {
    UnreferredCachedExactly(states, events, k, nn);
    hide Run, Referred, CarriesLabel;
  }

  // ---------------------------------------------------------------- failed reads

  /** A dropped secret nobody else refers to: either the loop stopped at another secret and left it
      alone, or its record is gone and it is still cached exactly if it is a CA or its read failed. */
  lemma DroppedSecretFate(s: State, referrer: Object, requested: set<NamespacedName>, answers: Answers, s': State,
                          nn: NamespacedName)
    requires UpdateStep(s, referrer, requested, answers, s', true)
    requires nn in s.cache && Ref(referrer, SecretObject(nn)) in s.refs && nn !in requested
    requires !ReferredByOther(s.refs, referrer, nn)
    ensures Ref(referrer, SecretObject(nn)) in s'.refs ==> nn in s'.cache
    ensures Ref(referrer, SecretObject(nn)) in s'.refs ==>
              exists bad ::
                bad != nn && Ref(referrer, SecretObject(bad)) in s.refs && bad !in requested && answers(bad).Failed?
    ensures Ref(referrer, SecretObject(nn)) !in s'.refs ==>
              (nn in s'.cache <==> CarriesLabel(answers(nn)) || answers(nn).Failed?)
  {
    CAMeans(answers(nn));
    var mid := Adopted(s, referrer, requested, answers);
    var outdated := Outdated(mid.refs, referrer, requested);
    OutdatedMember(s, referrer, requested, answers, nn);
    assert !ReferredByOther(mid.refs, referrer, nn);
    if !(s' == Released(mid, referrer, outdated, answers) && forall n :: n in outdated ==> !answers(n).Failed?) {
      var done, bad :| StoppedAt(mid, referrer, requested, answers, s', done, bad);
      OutdatedMember(s, referrer, requested, answers, bad);
      assert Ref(referrer, SecretObject(nn)) !in s'.refs ==> nn in done || nn == bad;
    }
  }

  /** After two updates, the first of which read nn without the CA label, nn is cached without a record. */
  ghost predicate LeakedPlainSecret(states: seq<State>, events: seq<Event>, nn: NamespacedName) {
    && |states| == 3 && |events| == 2
    && events[0].Update? && events[0].answers(nn) == Found(Secret(false, "")) && events[1].Update?
    && events[1].answers(nn).Failed?
    && nn in states[2].cache && states[2].refs == {}
  }

  /** So a failed read can leave a secret cached that has no record and never had the CA label. */
  lemma FailedReadLeaks(referrer: Object, nn: NamespacedName)
    ensures exists states: seq<State>, events: seq<Event> :: Run(states, events)
              && LeakedPlainSecret(states, events, nn)
  {
    hide UpdateStep;
    var found: Answers := _ => Found(Secret(false, ""));
    var failed: Answers := _ => Failed;
    var s0, s1, s2 := State({}, map[]), Adopted(State({}, map[]), referrer, {nn}, found),
      State({}, map[nn := Secret(false, "")]);
    LeakAdopts(referrer, nn, found);
    LeakAbandons(s1, referrer, nn, failed);
    var states, events := [s0, s1, s2], [Update(referrer, {nn}, found, true), Update(referrer, {}, failed, true)];
    assert Run(states, events) && LeakedPlainSecret(states, events, nn);
  }

  lemma LeakAdopts(referrer: Object, nn: NamespacedName, found: Answers)
    requires found(nn).Found?
    ensures var s0 := State({}, map[]); var s1 := Adopted(s0, referrer, {nn}, found);
            && s1 == State({Ref(referrer, SecretObject(nn))}, map[nn := found(nn).secret])
            && UpdateStep(s0, referrer, {nn}, found, s1, true)
  {
    var s1 := Adopted(State({}, map[]), referrer, {nn}, found);
    assert Outdated(s1.refs, referrer, {nn}) == {};
    assert Released(s1, referrer, {}, found) == s1;
  }

  lemma LeakAbandons(s: State, referrer: Object, nn: NamespacedName, failed: Answers)
    requires s.refs == {Ref(referrer, SecretObject(nn))} && failed(nn).Failed?
    ensures UpdateStep(s, referrer, {}, failed, State({}, s.cache), true)
  {
    assert Adopted(s, referrer, {}, failed) == s;
    OutdatedMember(s, referrer, {}, failed, nn);
    assert Released(s, referrer, {}, failed) == s;
    assert StoppedAt(s, referrer, {}, failed, State({}, s.cache), {}, nn);
  }

  // ---------------------------------------------------------------- the operations, step by step

  lemma AdoptOne(s: State, referrer: Object, done: set<NamespacedName>, answers: Answers, nn: NamespacedName)
    requires forall n :: n in done ==> answers(n).Found?
    ensures s.refs + RefsTo(referrer, done + {nn}) == Adopted(s, referrer, done, answers).refs
              + {Ref(referrer, SecretObject(nn))}
    ensures answers(nn).Found? ==>
              Adopted(s, referrer, done + {nn}, answers).cache
                == Adopted(s, referrer, done, answers).cache[nn := answers(nn).secret]
  {
    assert RefsTo(referrer, done + {nn}) == RefsTo(referrer, done) + {Ref(referrer, SecretObject(nn))};
  }

  function OutdatedIn(objs: seq<Object>, requested: set<NamespacedName>): set<NamespacedName> {
    set o | o in objs && o.gvk == SECRET && NameOf(o) !in requested :: NameOf(o)
  }

  lemma OutdatedSnoc(objs: seq<Object>, i: nat, requested: set<NamespacedName>)
    requires i < |objs| && forall a, b :: 0 <= a < b < |objs| ==> objs[a] != objs[b]
    ensures var o, done := objs[i], OutdatedIn(objs[..i], requested);
            if o.gvk == SECRET && NameOf(o) !in requested then
              NameOf(o) !in done && OutdatedIn(objs[..i + 1], requested) == done + {NameOf(o)}
            else
              OutdatedIn(objs[..i + 1], requested) == done
  {
    assert objs[..i + 1] == objs[..i] + [objs[i]];
    assert forall o :: o in objs[..i] && o.gvk == SECRET && objs[i].gvk == SECRET ==> NameOf(o) != NameOf(objs[i]);
  }

  lemma OutdatedAll(refs: set<Ref>, referrer: Object, objs: seq<Object>, requested: set<NamespacedName>)
    requires forall o :: o in objs <==> Ref(referrer, o) in refs
    ensures OutdatedIn(objs, requested) == Outdated(refs, referrer, requested)
  {
    forall r | r in refs && r.referrer == referrer ensures r.referent in objs {
      assert r == Ref(referrer, r.referent);
    }
  }

  lemma ReleaseOne(s: State, referrer: Object, done: set<NamespacedName>, answers: Answers, nn: NamespacedName)
    requires nn !in done
    ensures var mid, next := Released(s, referrer, done, answers), Released(s, referrer, done + {nn}, answers);
            && next.refs == mid.refs - {Ref(referrer, SecretObject(nn))} == Abandoned(mid, referrer, nn).refs
            && (Referred(next.refs, nn) <==> ReferredByOther(s.refs, referrer, nn))
            && next.cache == if IsCA(answers(nn)) || Referred(next.refs, nn) then mid.cache else mid.cache - {nn}
  {
    var mid, next := Released(s, referrer, done, answers), Released(s, referrer, done + {nn}, answers);
    assert RefsTo(referrer, done + {nn}) == RefsTo(referrer, done) + {Ref(referrer, SecretObject(nn))};
    if r :| r in s.refs && r.referent == SecretObject(nn) && r.referrer != referrer {
      assert r in next.refs;
    }
  }

  class Collector {
    const indexers: CacheIndexers
    var cache: map<NamespacedName, Secret>

    constructor (indexers: CacheIndexers)
      ensures this.indexers == indexers && cache == map[]
    {
      this.indexers := indexers;
      cache := map[];
    }

    ghost predicate Valid()
      reads this, indexers
    {
      indexers.Valid()
    }

    ghost function Abstract(): State
      reads this, indexers
    {
      State(indexers.Pairs(), cache)
    }

    /** UpdateReferencesToSecret */
    method UpdateReferencesToSecret(referrer: Object, requested: set<NamespacedName>, answers: Answers)
      returns (ok: bool)
      requires Valid() && Plain(referrer) && forall nn :: nn in requested ==> Plain(SecretObject(nn))
      modifies this, indexers
      ensures Valid() && UpdateStep(old(Abstract()), referrer, requested, answers, Abstract(), ok)
    {
      ghost var s := Abstract();
      hide CacheIndexers.Valid, CacheIndexers.Pairs, RemovalStep, Plain;
      var rest := requested;
      while rest != {}
        invariant rest <= requested && Valid()
        invariant forall nn :: nn in requested - rest ==> answers(nn).Found?
        invariant Abstract() == Adopted(s, referrer, requested - rest, answers)
        decreases rest
      {
        var nn :| nn in rest;
        ghost var done := requested - rest;
        AdoptOne(s, referrer, done, answers, nn);
        indexers.SetObjectReference(referrer, SecretObject(nn));
        if !answers(nn).Found? {
          assert RejectedAt(s, referrer, requested, answers, Abstract(), done, nn);
          return false;
        }
        cache := cache[nn := answers(nn).secret];
        rest := rest - {nn};
        assert requested - rest == done + {nn};
      }
      assert requested - rest == requested;
      RemoveOutdatedReferencesToSecret(referrer, requested, answers);
      ok := true;
    }

    /** removeOutdatedReferencesToSecret; a failed read returns the outer, nil, error. */
    method RemoveOutdatedReferencesToSecret(referrer: Object, requested: set<NamespacedName>, answers: Answers)
      requires Valid() && Plain(referrer)
      modifies this, indexers
      ensures Valid() && RemovalStep(old(Abstract()), referrer, requested, answers, Abstract())
    {
      ghost var s := Abstract();
      hide CacheIndexers.Valid, CacheIndexers.Pairs, Plain, OutdatedIn, Outdated;
      var referents := indexers.ListReferredObjects(referrer);
      OutdatedAll(s.refs, referrer, referents, requested);
      OutdatedNone(s, referrer, requested, answers);
      for i := 0 to |referents|
        invariant Valid() && Abstract() == Released(s, referrer, OutdatedIn(referents[..i], requested), answers)
        invariant forall nn :: nn in OutdatedIn(referents[..i], requested) ==> !answers(nn).Failed?
      {
        OutdatedSnoc(referents, i, requested);
        var stopped := RemoveOne(referrer, requested, answers, referents[i], s, OutdatedIn(referents[..i], requested));
        if stopped {
          OutdatedPrefix(referents, i, requested);
          assert StoppedAt(s, referrer, requested, answers, Abstract(), OutdatedIn(referents[..i], requested),
                   NameOf(referents[i]));
          return;
        }
      }
      assert referents[..|referents|] == referents;
    }

    /** DeleteReferencesByReferrer: first all records of the referrer, then the secrets left unreferred. */
    method DeleteReferencesByReferrer(referrer: Object)
      requires Valid() && Plain(referrer)
      modifies this, indexers
      ensures Valid() && Abstract() == Forgotten(old(Abstract()), referrer)
    {
      ghost var s := Abstract();
      hide CacheIndexers.Valid, CacheIndexers.Pairs, Plain;
      var referents := indexers.ListReferredObjects(referrer);
      for i := 0 to |referents|
        invariant Valid() && cache == s.cache
        invariant indexers.Pairs() == s.refs - RefsToObjects(referrer, referents[..i])
      {
        RefsToSnoc(referrer, referents, i);
        indexers.DeleteObjectReference(referrer, referents[i]);
      }
      assert referents[..|referents|] == referents;
      ForgetAll(s, referrer, referents);
      for i := 0 to |referents|
        invariant Valid() && indexers.Pairs() == Forgotten(s, referrer).refs
        invariant cache == Evicted(s, referrer, referents[..i])
      {
        EvictOne(s, referrer, referents, i);
        if referents[i].gvk == SECRET {
          var referred := indexers.ObjectReferred(referents[i]);
          if !referred {
            cache := cache - {NameOf(referents[i])};
          }
        }
      }
    }

    /** One iteration of the removal loop; stopped reports a failed read. */
    method RemoveOne(referrer: Object, requested: set<NamespacedName>, answers: Answers, obj: Object,
                     ghost s: State, ghost done: set<NamespacedName>) returns (stopped: bool)
      requires Valid() && Plain(referrer) && Plain(obj)
      requires Abstract() == Released(s, referrer, done, answers)
      requires obj.gvk == SECRET && NameOf(obj) !in requested ==> NameOf(obj) !in done
      modifies this, indexers
      ensures Valid()
      ensures stopped <==> obj.gvk == SECRET && NameOf(obj) !in requested && answers(NameOf(obj)).Failed?
      ensures stopped ==> Abstract() == Abandoned(Released(s, referrer, done, answers), referrer, NameOf(obj))
      ensures !stopped ==>
                var now := if obj.gvk == SECRET && NameOf(obj) !in requested then done + {NameOf(obj)} else done;
                Abstract() == Released(s, referrer, now, answers)
    {
      hide CacheIndexers.Valid, CacheIndexers.Pairs, Plain, Released;
      stopped := false;
      if obj.gvk == SECRET && NameOf(obj) !in requested {
        var nn := NameOf(obj);
        assert obj == SecretObject(nn);
        ReleaseOne(s, referrer, done, answers, nn);
        indexers.DeleteObjectReference(referrer, obj);
        if answers(nn).Failed? {
          stopped := true;
        } else if !IsCA(answers(nn)) {
          var referred := indexers.ObjectReferred(obj);
          if !referred {
            cache := cache - {nn};
          }
        }
      }
    }
  }

  lemma OutdatedNone(s: State, referrer: Object, requested: set<NamespacedName>, answers: Answers)
    ensures OutdatedIn([], requested) == {} && Released(s, referrer, {}, answers) == s
  {
  }

  lemma OutdatedPrefix(objs: seq<Object>, i: nat, requested: set<NamespacedName>)
    requires i < |objs|
    ensures OutdatedIn(objs[..i], requested) <= OutdatedIn(objs, requested)
    ensures objs[i].gvk == SECRET && NameOf(objs[i]) !in requested ==> NameOf(objs[i]) in OutdatedIn(objs, requested)
  {
  }

  function RefsToObjects(referrer: Object, objs: seq<Object>): set<Ref> {
    set o | o in objs :: Ref(referrer, o)
  }

  lemma RefsToSnoc(referrer: Object, objs: seq<Object>, i: nat)
    requires i < |objs|
    ensures RefsToObjects(referrer, objs[..i + 1]) == RefsToObjects(referrer, objs[..i]) + {Ref(referrer, objs[i])}
  {
    assert objs[..i + 1] == objs[..i] + [objs[i]];
  }

  /** The cache once the referents in objs have been checked. */
  function Evicted(s: State, referrer: Object, objs: seq<Object>): map<NamespacedName, Secret> {
    map nn | nn in s.cache && !(SecretObject(nn) in objs && !Referred(Forgotten(s, referrer).refs, nn)) :: s.cache[nn]
  }

  lemma ForgetAll(s: State, referrer: Object, objs: seq<Object>)
    requires forall o :: o in objs <==> Ref(referrer, o) in s.refs
    ensures s.refs - RefsToObjects(referrer, objs) == Forgotten(s, referrer).refs
    ensures Evicted(s, referrer, []) == s.cache
    ensures Evicted(s, referrer, objs) == Forgotten(s, referrer).cache
  {
    assert RefsToObjects(referrer, objs) == RefsBy(s.refs, referrer) by {
      forall r | r in s.refs && r.referrer == referrer ensures r in RefsToObjects(referrer, objs) {
        assert r == Ref(referrer, r.referent);
      }
    }
    forall nn ensures Referred(Forgotten(s, referrer).refs, nn) <==> ReferredByOther(s.refs, referrer, nn) {
      if r :| r in s.refs && r.referent == SecretObject(nn) && r.referrer != referrer {
        assert r in Forgotten(s, referrer).refs;
      }
    }
  }

  lemma EvictOne(s: State, referrer: Object, objs: seq<Object>, i: nat)
    requires i < |objs|
    ensures var before, after := Evicted(s, referrer, objs[..i]), Evicted(s, referrer, objs[..i + 1]);
            var gone := objs[i].gvk == SECRET && !Referred(Forgotten(s, referrer).refs, NameOf(objs[i]));
            after == if gone then before - {NameOf(objs[i])} else before
    ensures objs[i].gvk == SECRET ==> objs[i] == SecretObject(NameOf(objs[i]))
  {
    hide Referred, Forgotten;
    assert objs[..i + 1] == objs[..i] + [objs[i]];
  }
}
