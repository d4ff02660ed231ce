/**
 One round of KongClient.Update: take a snapshot of the cache unless it is unchanged, build and push
 the configuration, and on rejection try a fallback configuration and then the last valid one.
 Gateways, the configuration fetched from them, and the fallback generator answer as they like.
 */
module UpdateProtocol {
  import opened Common
  import Text
  import opened CacheSnapshots
  import opened FallbackGeneration

  type ObjectHash = Hash

  /** A built Kong configuration. */
  datatype KongState = KongState(entities: string)

  /** The error of a push to one gateway: a rejection naming broken objects, or anything else. */
  datatype PushError = Rejection(broken: seq<ObjectHash>) | OtherError

  datatype Answer = Accept(sha: string) | Refuse(error: PushError)

  /** The ready gateways at the time of a push, and their answers. */
  datatype Gateways = Gateways(ready: seq<string>, answer: string -> Answer)

  datatype Config = Config(
    fallback: bool, useLastValid: bool, dbless: bool, reports: bool,
    build: Contents -> KongState, digest: string -> string)

  /** What the environment answers during one round. */
  datatype Round = Round(
    cache: Contents, fetched: Option<KongState>, main: Gateways, fallbackPush: Gateways, recoveryPush: Gateways,
    generate: (Contents, Option<Contents>, seq<ObjectHash>) -> Option<Contents>, diagnosticsOk: bool)

  /** A push that reached gateways: what was sent, to whom, and whether all of them accepted. */
  datatype Push = Push(state: KongState, chosen: seq<string>, accepted: bool)

  /** Fields of KongClient and of its config fetcher; log and fetches are history. */
  datatype State = State(
    lastHash: string, lastValidSnapshot: Option<Contents>, shas: seq<string>, lastValid: Option<KongState>,
    log: seq<Push>, fetches: set<KongState>)

  const INITIAL := State("", None, [], None, [], {})

  datatype Outcome = Skipped | Synced(reported: bool) | SyncFailed(recovered: bool)

  // ---------------------------------------------------------------- one push

  /** GatewayClientsToConfigure: all gateways without a database, one of them with a database. */
  function Chosen(cfg: Config, gateways: seq<string>): seq<string> {
    if cfg.dbless || gateways == [] then gateways else gateways[..1]
  }

  predicate AllAccept(g: Gateways, chosen: seq<string>) {
    forall i :: 0 <= i < |chosen| ==> g.answer(chosen[i]).Accept?
  }

  function Shas(g: Gateways, chosen: seq<string>): seq<string>
    requires AllAccept(g, chosen)
  {
    if chosen == [] then [] else [g.answer(chosen[0]).sha] + Shas(g, chosen[1..])
  }

  /** errors.As on the joined error: the first rejection, if there is one. */
  function JoinedError(g: Gateways, chosen: seq<string>): PushError {
    if chosen == [] then OtherError
    else if g.answer(chosen[0]).Refuse? && g.answer(chosen[0]).error.Rejection? then g.answer(chosen[0]).error
    else JoinedError(g, chosen[1..])
  }

  datatype Sent = Sent(st: State, error: Option<PushError>, previousShas: seq<string>)

  /** sendOutToGatewayClients */
  function SendOut(cfg: Config, st: State, s: KongState, g: Gateways): Sent {
    if g.ready == [] then Sent(st, None, st.shas) else
      var chosen := Chosen(cfg, g.ready);
      if AllAccept(g, chosen) then
        Sent(st.(shas := Text.Sort(Shas(g, chosen)), lastValid := Some(s), log := st.log + [Push(s, chosen, true)]),
          None, st.shas)
      else
        Sent(st.(log := st.log + [Push(s, chosen, false)]), Some(JoinedError(g, chosen)), [])
  }

  /** maybePreserveTheLastValidConfigCache */
  function Preserve(cfg: Config, st: State, cache: Contents): State {
    if cfg.fallback && cfg.useLastValid then st.(lastValidSnapshot := Some(cache)) else st
  }

  // ---------------------------------------------------------------- recovery

  function Generated(cfg: Config, st: State, r: Round, broken: seq<ObjectHash>): Option<Contents> {
    var fc := r.generate(r.cache, if cfg.useLastValid then st.lastValidSnapshot else None, broken);
    if r.diagnosticsOk then fc else None
  }

  /** tryRecoveringWithFallbackConfiguration */
  function TryFallback(cfg: Config, st: State, r: Round, broken: seq<ObjectHash>): (State, bool) {
    var fc := Generated(cfg, st, r, broken);
    if fc.None? then (st, false) else
      var sent := SendOut(cfg, st, cfg.build(fc.value), r.fallbackPush);
      if sent.error.Some? then (sent.st, false) else (Preserve(cfg, sent.st, fc.value), true)
  }

  /** The last step of maybeTryRecoveringFromGatewaysSyncError: push the last valid configuration again. */
  function PushLastValid(cfg: Config, st: State, r: Round): (State, bool) {
    if st.lastValid.None? then (st, true) else
      var sent := SendOut(cfg, st, st.lastValid.value, r.recoveryPush);
      (sent.st, sent.error.None?)
  }

  /** maybeTryRecoveringFromGatewaysSyncError */
  function Recover(cfg: Config, st: State, r: Round, error: PushError): (State, bool) {
    if error.OtherError? then (st, true)
    else if cfg.fallback && |error.broken| > 0 then
      var (st1, ok) := TryFallback(cfg, st, r, error.broken);
      if ok then (st1, true) else PushLastValid(cfg, st1, r)
    else
      PushLastValid(cfg, st, r)
  }

  // ---------------------------------------------------------------- one round

  function Fetch(cfg: Config, st: State, r: Round): State {
    if cfg.dbless && st.lastValid.None? && r.fetched.Some? then
      st.(lastValid := r.fetched, fetches := st.fetches + {r.fetched.value})
    else st
  }

  ghost predicate Skips(cfg: Config, st: State, r: Round)
    requires WellKeyed(r.cache)
  {
    cfg.fallback && cfg.digest(Stream(r.cache)) == st.lastHash
  }

  ghost function Noted(cfg: Config, st: State, r: Round): State
    requires WellKeyed(r.cache)
  {
    if cfg.fallback then st.(lastHash := cfg.digest(Stream(r.cache))) else st
  }

  /** What follows once the configuration has been built: push, then preserve or recover. */
  function Process(cfg: Config, st: State, r: Round): (State, Outcome) {
    var sent := SendOut(cfg, st, cfg.build(r.cache), r.main);
    if sent.error.Some? then
      var (st1, ok) := Recover(cfg, sent.st, r, sent.error.value);
      (st1, SyncFailed(ok))
    else
      (Preserve(cfg, sent.st, r.cache), Synced(cfg.reports && sent.previousShas != sent.st.shas))
  }

  /** Update */
  ghost function Next(cfg: Config, st: State, r: Round): (State, Outcome)
    requires WellKeyed(r.cache)
  {
    var st0 := Fetch(cfg, st, r);
    if Skips(cfg, st0, r) then (st0, Skipped) else Process(cfg, Noted(cfg, st0, r), r)
  }

  // ---------------------------------------------------------------- coupling

  /** Some push of s was accepted by every gateway it was sent to, at least one. */
  ghost predicate Accepted(log: seq<Push>, s: KongState) {
    exists i :: 0 <= i < |log| && log[i].state == s && log[i].accepted && log[i].chosen != []
  }

  /** The last valid configuration is the build of the last valid snapshot and was accepted in one
      push, or it was fetched from a gateway and there is no snapshot; or there is neither. */
  ghost predicate Coupled(cfg: Config, st: State) {
    match st.lastValidSnapshot
    case Some(c) => st.lastValid == Some(cfg.build(c)) && Accepted(st.log, cfg.build(c))
    case None => st.lastValid.Some? ==> st.lastValid.value in st.fetches
  }

  lemma AcceptedGrows(log: seq<Push>, p: Push, s: KongState)
    requires Accepted(log, s)
    ensures Accepted(log + [p], s)
  {
    var i :| 0 <= i < |log| && log[i].state == s && log[i].accepted && log[i].chosen != [];
    assert (log + [p])[i] == log[i];
  }

  /** A push that reports success stored the configuration, unless no gateway was ready. */
  lemma SendOutOutcome(cfg: Config, st: State, s: KongState, g: Gateways)
    ensures var sent := SendOut(cfg, st, s, g);
            && sent.st == st.(shas := sent.st.shas, lastValid := sent.st.lastValid, log := sent.st.log)
            && (sent.error.Some? || g.ready == [] ==> sent.st.lastValid == st.lastValid)
            && (sent.error.None? && g.ready != [] ==> sent.st.lastValid == Some(s) && Accepted(sent.st.log, s))
            && (forall t :: Accepted(st.log, t) ==> Accepted(sent.st.log, t))
  {
    var chosen := Chosen(cfg, g.ready);
    var sent := SendOut(cfg, st, s, g);
    forall t | Accepted(st.log, t) ensures Accepted(sent.st.log, t) {
      if g.ready != [] {
        AcceptedGrows(st.log, Push(s, chosen, AllAccept(g, chosen)), t);
      }
    }
    if g.ready != [] && AllAccept(g, chosen) {
      assert sent.st.log[|st.log|] == Push(s, chosen, true);
    }
  }

  /** Pushing the last valid configuration again never breaks the coupling. */
  lemma LastValidPushKeepsCoupling(cfg: Config, st: State, r: Round)
    requires Coupled(cfg, st)
    ensures Coupled(cfg, PushLastValid(cfg, st, r).0)
  {
    hide SendOut, Accepted;
    if st.lastValid.Some? {
      SendOutOutcome(cfg, st, st.lastValid.value, r.recoveryPush);
    }
  }

  /** A failed push keeps the coupling; a successful one that is then preserved creates it afresh. */
  lemma PushAndPreserve(cfg: Config, st: State, c: Contents, g: Gateways)
    requires cfg.fallback && cfg.useLastValid
    ensures var sent := SendOut(cfg, st, cfg.build(c), g);
            && (sent.error.Some? && Coupled(cfg, st) ==> Coupled(cfg, sent.st))
            && (sent.error.None? ==>
                  (Coupled(cfg, Preserve(cfg, sent.st, c)) <==>
                     g.ready != [] || (st.lastValid == Some(cfg.build(c)) && Accepted(st.log, cfg.build(c)))))
  {
    hide Accepted;
    SendOutOutcome(cfg, st, cfg.build(c), g);
  }

  /** The cache that the round preserves as last valid, with the gateways its push found. */
  function Preserved(cfg: Config, st: State, r: Round): Option<(Contents, Gateways)> {
    var sent := SendOut(cfg, st, cfg.build(r.cache), r.main);
    if sent.error.None? then Some((r.cache, r.main))
    else if sent.error.value.Rejection? && |sent.error.value.broken| > 0
      && TryFallback(cfg, sent.st, r, sent.error.value.broken).1 then
      Some((Generated(cfg, sent.st, r, sent.error.value.broken).value, r.fallbackPush))
    else None
  }

  /** The push the round trusts, if any, found a ready gateway, or its configuration happened to be
      the last valid one already. */
  ghost predicate TrustsRightly(cfg: Config, st: State, r: Round) {
    match Preserved(cfg, st, r)
    case None => true
    case Some((c, g)) => g.ready != [] || (st.lastValid == Some(cfg.build(c)) && Accepted(st.log, cfg.build(c)))
  }

  /** A processed round keeps the coupling if and only if it trusts rightly. */
  lemma ProcessCouples(cfg: Config, st: State, r: Round)
    requires cfg.fallback && cfg.useLastValid && Coupled(cfg, st)
    ensures Coupled(cfg, Process(cfg, st, r).0) <==> TrustsRightly(cfg, st, r)
  {
    hide SendOut, Coupled, Accepted;
    PushAndPreserve(cfg, st, r.cache, r.main);
    var sent := SendOut(cfg, st, cfg.build(r.cache), r.main);
    if sent.error.Some? && sent.error.value.Rejection? {
      SendOutOutcome(cfg, st, cfg.build(r.cache), r.main);
      RecoverCouples(cfg, sent.st, r, sent.error.value.broken);
      if Preserved(cfg, st, r).Some? {
        var c := Preserved(cfg, st, r).value.0;
        FailedPushAccepts(cfg, st, cfg.build(r.cache), r.main, cfg.build(c));
      }
    }
  }

  /** A refused push adds no accepted configuration. */
  lemma FailedPushAccepts(cfg: Config, st: State, s: KongState, g: Gateways, t: KongState)
    requires SendOut(cfg, st, s, g).error.Some?
    ensures Accepted(SendOut(cfg, st, s, g).st.log, t) <==> Accepted(st.log, t)
    ensures SendOut(cfg, st, s, g).st.lastValid == st.lastValid
  {
    var p := Push(s, Chosen(cfg, g.ready), false);
    assert SendOut(cfg, st, s, g).st.log == st.log + [p];
    if Accepted(st.log, t) {
      AcceptedGrows(st.log, p, t);
    }
    if Accepted(st.log + [p], t) {
      var i :| 0 <= i < |st.log + [p]| && (st.log + [p])[i].state == t && (st.log + [p])[i].accepted
        && (st.log + [p])[i].chosen != [];
      assert st.log[i] == (st.log + [p])[i];
    }
  }

  lemma RecoverCouples(cfg: Config, st: State, r: Round, broken: seq<ObjectHash>)
    requires cfg.fallback && cfg.useLastValid && Coupled(cfg, st)
    ensures var after := Recover(cfg, st, r, Rejection(broken)).0;
            if |broken| > 0 && TryFallback(cfg, st, r, broken).1 then
              var c := Generated(cfg, st, r, broken).value;
              Coupled(cfg, after) <==>
                r.fallbackPush.ready != [] || (st.lastValid == Some(cfg.build(c)) && Accepted(st.log, cfg.build(c)))
            else Coupled(cfg, after)
  {
    hide SendOut, Coupled, Accepted, PushLastValid;
    if |broken| > 0 {
      var fc := Generated(cfg, st, r, broken);
      if fc.Some? {
        PushAndPreserve(cfg, st, fc.value, r.fallbackPush);
      }
      if !TryFallback(cfg, st, r, broken).1 {
        LastValidPushKeepsCoupling(cfg, TryFallback(cfg, st, r, broken).0, r);
      }
    } else {
      LastValidPushKeepsCoupling(cfg, st, r);
    }
  }

  /** Every push of the round that may be trusted finds a ready gateway. */
  predicate GatewaysReady(r: Round) {
    r.main.ready != [] && r.fallbackPush.ready != []
  }

  lemma FetchKeepsCoupling(cfg: Config, st: State, r: Round)
    requires Coupled(cfg, st)
    ensures Coupled(cfg, Fetch(cfg, st, r))
  {
  }

  /** The round is skipped, or what it trusts is right. */
  ghost predicate RoundCouples(cfg: Config, st: State, r: Round)
    requires WellKeyed(r.cache)
  {
    var st0 := Fetch(cfg, st, r);
    Skips(cfg, st0, r) || TrustsRightly(cfg, Noted(cfg, st0, r), r)
  }

  lemma NextCouplesExactly(cfg: Config, st: State, r: Round)
    requires cfg.fallback && cfg.useLastValid && WellKeyed(r.cache) && Coupled(cfg, st)
    ensures Coupled(cfg, Next(cfg, st, r).0) <==> RoundCouples(cfg, st, r)
  {
    FetchKeepsCoupling(cfg, st, r);
    var st0 := Fetch(cfg, st, r);
    assert Coupled(cfg, Noted(cfg, st0, r));
    hide Coupled, Process, TrustsRightly;
    if !Skips(cfg, st0, r) {
      ProcessCouples(cfg, Noted(cfg, st0, r), r);
    }
  }

  /** A processed round whose trusted push finds a gateway couples, whatever came before. */
  lemma CouplesAgain(cfg: Config, st: State, r: Round)
    requires cfg.fallback && cfg.useLastValid && WellKeyed(r.cache) && !Skips(cfg, Fetch(cfg, st, r), r)
    requires var p := Preserved(cfg, Noted(cfg, Fetch(cfg, st, r), r), r); p.Some? && p.value.1.ready != []
    ensures Coupled(cfg, Next(cfg, st, r).0)
  {
    var st1 := Noted(cfg, Fetch(cfg, st, r), r);
    hide SendOut, Coupled, Accepted, Fetch, Noted, Skips;
    PushAndPreserve(cfg, st1, r.cache, r.main);
    var sent := SendOut(cfg, st1, cfg.build(r.cache), r.main);
    if sent.error.Some? {
      PushAndPreserve(cfg, sent.st, Preserved(cfg, st1, r).value.0, r.fallbackPush);
    }
  }

  // ---------------------------------------------------------------- whole runs

  ghost predicate Run(cfg: Config, states: seq<State>, rounds: seq<Round>) {
    && |states| == |rounds| + 1
    && states[0] == INITIAL
    && forall i :: 0 <= i < |rounds| ==>
          WellKeyed(rounds[i].cache) && states[i + 1] == Next(cfg, states[i], rounds[i]).0
  }

  lemma RunStep(cfg: Config, states: seq<State>, rounds: seq<Round>, i: nat)
    requires Run(cfg, states, rounds) && i < |rounds|
    ensures |states| == |rounds| + 1 && WellKeyed(rounds[i].cache) && states[i + 1] == Next(cfg, states[i], rounds[i]).0
  {
    hide Next, WellKeyed;
  }

  ghost predicate AllCoupled(cfg: Config, states: seq<State>, k: nat)
    requires k < |states|
  {
    forall i :: 0 <= i <= k ==> Coupled(cfg, states[i])
  }

  ghost predicate RoundsCouple(cfg: Config, states: seq<State>, rounds: seq<Round>, k: nat)
    requires k <= |rounds| <= |states|
  {
    forall i :: 0 <= i < k ==> WellKeyed(rounds[i].cache) && RoundCouples(cfg, states[i], rounds[i])
  }

  /** Over every run of accepts, rejections, failed fallbacks and recoveries: the last valid
      configuration and the last valid snapshot stay coupled if and only if every round is skipped
      or trusts a push that found a gateway (or pushed the last valid configuration anyway). */
  lemma {:induction false} RunCoupledExactly(cfg: Config, states: seq<State>, rounds: seq<Round>, k: nat)
    requires cfg.fallback && cfg.useLastValid && Run(cfg, states, rounds) && k < |states|
    ensures AllCoupled(cfg, states, k) <==> RoundsCouple(cfg, states, rounds, k)
  {
    if k > 0 {
      RunStep(cfg, states, rounds, k - 1);
      hide Run, Coupled, Next, RoundCouples, WellKeyed;
      RunCoupledExactly(cfg, states, rounds, k - 1);
      if Coupled(cfg, states[k - 1]) {
        NextCouplesExactly(cfg, states[k - 1], rounds[k - 1]);
      }
    }
  }

  /** In particular they stay coupled while gateways are ready. */
  lemma RunKeepsCoupling(cfg: Config, states: seq<State>, rounds: seq<Round>, k: nat)
    requires cfg.fallback && cfg.useLastValid && Run(cfg, states, rounds) && k < |states|
    requires forall i :: 0 <= i < k ==> GatewaysReady(rounds[i])
    ensures Coupled(cfg, states[k])
  {
    hide Coupled, Skips, SendOut, Next, Accepted, WellKeyed;
    RunCoupledExactly(cfg, states, rounds, k);
    assert RoundsCouple(cfg, states, rounds, k);
  }

  // ---------------------------------------------------------------- what a round sends

  /** The gateways asked by a push: all ready ones, but with a database only the first. */
  function Asked(cfg: Config, g: Gateways): seq<string>
    requires g.ready != []
  {
    if cfg.dbless then g.ready else [g.ready[0]]
  }

  ghost predicate Takes(cfg: Config, g: Gateways)
    requires g.ready != []
  {
    forall i :: 0 <= i < |Asked(cfg, g)| ==> g.answer(Asked(cfg, g)[i]).Accept?
  }

  predicate Refuses(a: Answer, broken: seq<ObjectHash>) {
    a == Refuse(Rejection(broken))
  }

  predicate IsRejection(a: Answer) {
    a.Refuse? && a.error.Rejection?
  }

  /** The first rejection among the answers names the broken objects. */
  ghost predicate Rejects(cfg: Config, g: Gateways, broken: seq<ObjectHash>)
    requires g.ready != []
  {
    var asked := Asked(cfg, g);
    exists i :: 0 <= i < |asked| && Refuses(g.answer(asked[i]), broken)
                && forall j :: 0 <= j < i ==> !IsRejection(g.answer(asked[j]))
  }

  /** Some gateway fails, and none rejects. */
  ghost predicate Fails(cfg: Config, g: Gateways)
    requires g.ready != []
  {
    var asked := Asked(cfg, g);
    && (exists i :: 0 <= i < |asked| && g.answer(asked[i]).Refuse?)
    && (forall i :: 0 <= i < |asked| ==> !IsRejection(g.answer(asked[i])))
  }

  lemma {:induction false} JoinedErrorFirst(g: Gateways, chosen: seq<string>)
    ensures JoinedError(g, chosen).OtherError? <==> forall i :: 0 <= i < |chosen| ==> !IsRejection(g.answer(chosen[i]))
    ensures forall i :: 0 <= i < |chosen| && IsRejection(g.answer(chosen[i]))
                        && (forall j :: 0 <= j < i ==> !IsRejection(g.answer(chosen[j]))) ==>
              JoinedError(g, chosen) == g.answer(chosen[i]).error
  {
    if chosen != [] {
      JoinedErrorFirst(g, chosen[1..]);
      assert forall i :: 0 < i < |chosen| ==> chosen[1..][i - 1] == chosen[i];
      forall i | 0 <= i < |chosen| && IsRejection(g.answer(chosen[i]))
                 && (forall j :: 0 <= j < i ==> !IsRejection(g.answer(chosen[j])))
        ensures JoinedError(g, chosen) == g.answer(chosen[i]).error
      {
        if i > 0 {
          assert !IsRejection(g.answer(chosen[0]));
          assert forall j :: 0 <= j < i - 1 ==> chosen[1..][j] == chosen[j + 1];
        }
      }
    }
  }

  lemma FirstRejection(g: Gateways, chosen: seq<string>, n: nat) returns (i: nat)
    requires n < |chosen| && IsRejection(g.answer(chosen[n]))
    ensures i <= n && IsRejection(g.answer(chosen[i])) && forall j :: 0 <= j < i ==> !IsRejection(g.answer(chosen[j]))
  {
    i := 0;
    while !IsRejection(g.answer(chosen[i]))
      invariant i <= n && forall j :: 0 <= j < i ==> !IsRejection(g.answer(chosen[j]))
      decreases n - i
    {
      i := i + 1;
    }
  }

  /** What one push does, from the answers of the gateways asked. */
  lemma PushByAnswers(cfg: Config, st: State, s: KongState, g: Gateways)
    requires g.ready != []
    ensures var sent := SendOut(cfg, st, s, g);
            && sent.st == st.(shas := sent.st.shas, lastValid := if Takes(cfg, g) then Some(s) else st.lastValid,
                              log := st.log + [Push(s, Asked(cfg, g), Takes(cfg, g))])
            && (sent.error.None? <==> Takes(cfg, g))
            && (forall broken :: sent.error == Some(Rejection(broken)) <==> Rejects(cfg, g, broken))
            && (sent.error == Some(OtherError) <==> Fails(cfg, g))
  {
    var asked := Asked(cfg, g);
    assert Chosen(cfg, g.ready) == asked;
    JoinedErrorFirst(g, asked);
    if n :| 0 <= n < |asked| && IsRejection(g.answer(asked[n])) {
      var i := FirstRejection(g, asked, n);
      assert !Takes(cfg, g) && Refuses(g.answer(asked[i]), g.answer(asked[i]).error.broken);
    }
  }

  /** The hashes kept after an accepted push are those of the answers, sorted. */
  lemma ShasByAnswers(cfg: Config, st: State, s: KongState, g: Gateways, hashes: seq<string>)
    requires g.ready != [] && |hashes| == |Asked(cfg, g)|
    requires forall i :: 0 <= i < |hashes| ==> g.answer(Asked(cfg, g)[i]) == Accept(hashes[i])
    ensures var shas := SendOut(cfg, st, s, g).st.shas; Text.Sorted(shas) && multiset(shas) == multiset(hashes)
  {
    var asked := Asked(cfg, g);
    assert Chosen(cfg, g.ready) == asked;
    ShasElements(g, asked);
    assert Shas(g, asked) == hashes;
  }

  lemma {:induction false} ShasElements(g: Gateways, chosen: seq<string>)
    requires AllAccept(g, chosen)
    ensures |Shas(g, chosen)| == |chosen| && forall i :: 0 <= i < |chosen| ==>
              Shas(g, chosen)[i] == g.answer(chosen[i]).sha
  {
    if chosen != [] {
      ShasElements(g, chosen[1..]);
    }
  }

  /** The fallback cache to be pushed after a rejection, if there is to be one. */
  ghost function FallbackCache(cfg: Config, st: State, r: Round, broken: seq<ObjectHash>): Option<Contents> {
    if cfg.fallback && broken != [] && r.diagnosticsOk then
      r.generate(r.cache, if cfg.useLastValid then st.lastValidSnapshot else None, broken)
    else None
  }

  /** No gateway is there to refuse the fallback cache. */
  ghost predicate FallbackUnopposed(cfg: Config, r: Round) {
    r.fallbackPush.ready == [] || Takes(cfg, r.fallbackPush)
  }

  /** The build of the cache was pushed, with this result. */
  ghost function MainPush(cfg: Config, r: Round): Push
    requires r.main.ready != []
  {
    Push(cfg.build(r.cache), Asked(cfg, r.main), Takes(cfg, r.main))
  }

  ghost function KeptSnapshot(cfg: Config, st: State, cache: Contents): Option<Contents> {
    if cfg.fallback && cfg.useLastValid then Some(cache) else st.lastValidSnapshot
  }

  /** No gateway: nothing is sent or stored as last valid, and the round passes for a success. */
  lemma RoundWithoutGateway(cfg: Config, st: State, r: Round)
    requires r.main.ready == []
    ensures Process(cfg, st, r) == (st.(lastValidSnapshot := KeptSnapshot(cfg, st, r.cache)), Synced(false))
  {
  }

  /** All accept: one push, whose configuration and cache are remembered. */
  lemma RoundAccepted(cfg: Config, st: State, r: Round)
    requires r.main.ready != [] && Takes(cfg, r.main)
    ensures var (end, outcome) := Process(cfg, st, r);
            && end.log == st.log + [MainPush(cfg, r)] && end.lastValid == Some(cfg.build(r.cache))
            && end.lastValidSnapshot == KeptSnapshot(cfg, st, r.cache)
            && outcome == Synced(cfg.reports && end.shas != st.shas)
  {
    PushByAnswers(cfg, st, cfg.build(r.cache), r.main);
  }

  /** Failures other than rejections: nothing more is sent and nothing remembered changes. */
  lemma RoundFailed(cfg: Config, st: State, r: Round)
    requires r.main.ready != [] && Fails(cfg, r.main)
    ensures Process(cfg, st, r) == (st.(log := st.log + [MainPush(cfg, r)]), SyncFailed(true))
  {
    hide Fails, Takes;
    PushByAnswers(cfg, st, cfg.build(r.cache), r.main);
    FailedPushAccepts(cfg, st, cfg.build(r.cache), r.main, cfg.build(r.cache));
  }

  /** Rejected, and the fallback cache is not refused: its build is the second and last push. */
  lemma RoundFellBack(cfg: Config, st: State, r: Round, broken: seq<ObjectHash>, fc: Contents)
    requires r.main.ready != [] && Rejects(cfg, r.main, broken)
    requires FallbackCache(cfg, st, r, broken) == Some(fc) && FallbackUnopposed(cfg, r)
    ensures var (end, outcome) := Process(cfg, st, r);
            && outcome == SyncFailed(true) && end.lastValidSnapshot == KeptSnapshot(cfg, st, fc)
            && (r.fallbackPush.ready == [] ==> end.log == st.log + [MainPush(cfg, r)] && end.lastValid == st.lastValid)
            && (r.fallbackPush.ready != [] ==>
                  && end.log == st.log + [MainPush(cfg, r), Push(cfg.build(fc), Asked(cfg, r.fallbackPush), true)]
                  && end.lastValid == Some(cfg.build(fc)))
  {
    hide Rejects, Takes, PushLastValid;
    PushByAnswers(cfg, st, cfg.build(r.cache), r.main);
    var sent := SendOut(cfg, st, cfg.build(r.cache), r.main);
    if r.fallbackPush.ready != [] {
      PushByAnswers(cfg, sent.st, cfg.build(fc), r.fallbackPush);
      hide SendOut;
      assert st.log + [MainPush(cfg, r)] + [Push(cfg.build(fc), Asked(cfg, r.fallbackPush), true)]
             == st.log + [MainPush(cfg, r), Push(cfg.build(fc), Asked(cfg, r.fallbackPush), true)];
    }
  }

  /** The pushes of a rejected round before the last valid configuration's turn. */
  ghost function RefusedPushes(cfg: Config, st: State, r: Round, broken: seq<ObjectHash>): seq<Push>
    requires r.main.ready != [] && (FallbackCache(cfg, st, r, broken).Some? ==> r.fallbackPush.ready != [])
  {
    match FallbackCache(cfg, st, r, broken)
    case None => [MainPush(cfg, r)]
    case Some(fc) => [MainPush(cfg, r), Push(cfg.build(fc), Asked(cfg, r.fallbackPush), false)]
  }

  /** Rejected without an accepted fallback: the last valid configuration, if there is one, is pushed
      to the gateways ready then, and the round has recovered exactly if none of them refuses it. */
  lemma RoundRecovers(cfg: Config, st: State, r: Round, broken: seq<ObjectHash>)
    requires r.main.ready != [] && Rejects(cfg, r.main, broken)
    requires FallbackCache(cfg, st, r, broken).Some? ==> !FallbackUnopposed(cfg, r)
    ensures var (end, outcome) := Process(cfg, st, r);
            var before := st.log + RefusedPushes(cfg, st, r, broken);
            && end.lastValid == st.lastValid && end.lastValidSnapshot == st.lastValidSnapshot
            && if st.lastValid.Some? && r.recoveryPush.ready != [] then
                 && end.log == before
                       + [Push(st.lastValid.value, Asked(cfg, r.recoveryPush), Takes(cfg, r.recoveryPush))]
                 && outcome == SyncFailed(Takes(cfg, r.recoveryPush))
               else end.log == before && outcome == SyncFailed(true)
  {
    hide Rejects, Takes;
    PushByAnswers(cfg, st, cfg.build(r.cache), r.main);
    var st1 := SendOut(cfg, st, cfg.build(r.cache), r.main).st;
    assert !Takes(cfg, r.main);
    var st2 := st1;
    if FallbackCache(cfg, st, r, broken).Some? {
      var fc := FallbackCache(cfg, st, r, broken).value;
      PushByAnswers(cfg, st1, cfg.build(fc), r.fallbackPush);
      st2 := SendOut(cfg, st1, cfg.build(fc), r.fallbackPush).st;
      assert st.log + [MainPush(cfg, r)] + [Push(cfg.build(fc), Asked(cfg, r.fallbackPush), false)]
             == st.log + [MainPush(cfg, r), Push(cfg.build(fc), Asked(cfg, r.fallbackPush), false)];
    }
    assert Process(cfg, st, r) == (PushLastValid(cfg, st2, r).0, SyncFailed(PushLastValid(cfg, st2, r).1));
    if st.lastValid.Some? && r.recoveryPush.ready != [] {
      PushByAnswers(cfg, st2, st.lastValid.value, r.recoveryPush);
    }
    hide Process, SendOut;
  }

  /** Without a last valid configuration of its own, a client without database recovers with what it
      fetched from a gateway. */
  lemma FetchedRecovers(cfg: Config, st: State, r: Round, broken: seq<ObjectHash>, s: KongState)
    requires WellKeyed(r.cache) && cfg.dbless && st.lastValid.None? && r.fetched == Some(s)
    requires !cfg.fallback || (cfg.digest(Stream(r.cache)) != st.lastHash && broken == [])
    requires r.main.ready != [] && Rejects(cfg, r.main, broken) && r.recoveryPush.ready != []
    ensures var (end, outcome) := Next(cfg, st, r);
            && end.log == st.log + [MainPush(cfg, r), Push(s, r.recoveryPush.ready, Takes(cfg, r.recoveryPush))]
            && outcome == SyncFailed(Takes(cfg, r.recoveryPush)) && end.lastValid == Some(s)
  {
    hide Rejects, Takes, Process, Stream, WellKeyed;
    var st1 := Noted(cfg, Fetch(cfg, st, r), r);
    RoundRecovers(cfg, st1, r, broken);
  }

  /** Otherwise nothing is fetched. */
  lemma FetchedIgnored(cfg: Config, st: State, r: Round, fetched: Option<KongState>)
    requires WellKeyed(r.cache) && (st.lastValid.Some? || !cfg.dbless)
    ensures Next(cfg, st, r.(fetched := fetched)) == Next(cfg, st, r)
  {
    hide Stream, WellKeyed, SendOut;
  }

  // ---------------------------------------------------------------- skipped rounds

  /** The last round before round i that was not skipped. */
  ghost function LastProcessed(cfg: Config, states: seq<State>, rounds: seq<Round>, i: nat): Option<nat>
    requires Run(cfg, states, rounds) && i <= |rounds|
  {
    if i == 0 then None
    else if Next(cfg, states[i - 1], rounds[i - 1]).1 == Skipped then LastProcessed(cfg, states, rounds, i - 1)
    else Some(i - 1)
  }

  lemma PushesKeepHash(cfg: Config, st: State, r: Round)
    ensures Process(cfg, st, r).0.lastHash == st.lastHash
    ensures Process(cfg, st, r).1 != Skipped
  {
    hide TryFallback, PushLastValid, SendOut;
    var sent := SendOut(cfg, st, cfg.build(r.cache), r.main);
    SendKeepsHash(cfg, st, cfg.build(r.cache), r.main);
    if sent.error.Some? && !sent.error.value.OtherError? {
      var broken := sent.error.value.broken;
      FallbackKeepsHash(cfg, sent.st, r, broken);
      PushKeepsHash(cfg, sent.st, r);
      PushKeepsHash(cfg, TryFallback(cfg, sent.st, r, broken).0, r);
    }
  }

  lemma SendKeepsHash(cfg: Config, st: State, s: KongState, g: Gateways)
    ensures SendOut(cfg, st, s, g).st.lastHash == st.lastHash
  {
    hide JoinedError, Shas, AllAccept, Chosen;
  }

  lemma FallbackKeepsHash(cfg: Config, st: State, r: Round, broken: seq<ObjectHash>)
    ensures TryFallback(cfg, st, r, broken).0.lastHash == st.lastHash
  {
    hide SendOut;
    var fc := Generated(cfg, st, r, broken);
    if fc.Some? {
      SendKeepsHash(cfg, st, cfg.build(fc.value), r.fallbackPush);
    }
  }

  lemma PushKeepsHash(cfg: Config, st: State, r: Round)
    ensures PushLastValid(cfg, st, r).0.lastHash == st.lastHash
  {
    hide SendOut;
    if st.lastValid.Some? {
      SendKeepsHash(cfg, st, st.lastValid.value, r.recoveryPush);
    }
  }

  lemma {:induction false} HashOfLastProcessed(cfg: Config, states: seq<State>, rounds: seq<Round>, i: nat)
    requires cfg.fallback && Run(cfg, states, rounds) && i <= |rounds|
    ensures var last := LastProcessed(cfg, states, rounds, i);
            && (last.Some? ==> last.value < i)
            && states[i].lastHash == if last.None? then "" else cfg.digest(Stream(rounds[last.value].cache))
  {
    hide Process, Stream, WellKeyed;
    if i > 0 {
      HashOfLastProcessed(cfg, states, rounds, i - 1);
      var st0 := Fetch(cfg, states[i - 1], rounds[i - 1]);
      PushesKeepHash(cfg, Noted(cfg, st0, rounds[i - 1]), rounds[i - 1]);
    }
  }

  /** In every run a round is skipped exactly when each store holds the versions it held in the last
      round that was processed, whatever came of that round. */
  lemma SkippedExactly(cfg: Config, states: seq<State>, rounds: seq<Round>, i: nat, kindOf: string -> Kind)
    requires cfg.fallback && CollisionFree(cfg.digest) && Run(cfg, states, rounds) && i < |rounds|
    requires forall j :: 0 <= j < |rounds| ==> FromCluster(rounds[j].cache) && UidsHaveKind(rounds[j].cache, kindOf)
    ensures var last := LastProcessed(cfg, states, rounds, i);
            Next(cfg, states[i], rounds[i]).1 == Skipped <==>
              last.Some? && last.value < i && SameVersions(rounds[i].cache, rounds[last.value].cache)
  {
    HashOfLastProcessed(cfg, states, rounds, i);
    hide Process, Stream, WellKeyed, FromCluster, UidsHaveKind, SameVersions;
    var last := LastProcessed(cfg, states, rounds, i);
    var st0 := Fetch(cfg, states[i], rounds[i]);
    PushesKeepHash(cfg, Noted(cfg, st0, rounds[i]), rounds[i]);
    if last.Some? {
      DigestDetectsChange(rounds[i].cache, rounds[last.value].cache, kindOf, cfg.digest);
    }
  }

  /** In particular no round is repeated while the cache stays as it is: not one that failed, and
      not one that found no gateway to push to, though gateways be ready now. */
  lemma NotRepeatedUntilChanged(cfg: Config, st: State, r: Round, r': Round)
    requires cfg.fallback && WellKeyed(r.cache) && WellKeyed(r'.cache) && Stream(r'.cache) == Stream(r.cache)
    ensures var st' := Next(cfg, st, r).0;
            Next(cfg, st', r').1 == Skipped && Next(cfg, st', r').0.log == st'.log
  {
    hide Process, Stream, WellKeyed;
    PushesKeepHash(cfg, Noted(cfg, Fetch(cfg, st, r), r), r);
  }

  // ---------------------------------------------------------------- with the fallback generator

  /** What the generator makes of the cache: without a last valid snapshot the affected objects are
      left out, else they are put back as they were. */
  ghost function FallbackOf(g: Graph, cache: Contents, broken: seq<ObjectHash>, lastGraph: Graph,
                            snapshot: Option<Contents>): Contents
    requires g.Valid() && lastGraph.Valid() && (snapshot.Some? ==> cache.Keys <= snapshot.value.Keys)
  {
    match snapshot
    case None => Exclude(cache, Affected(g, broken))
    case Some(last) => Backfilled(g, cache, broken, lastGraph, last)
  }

  /** After a rejection the gateways hold the build of the generated cache, which is remembered with
      it. Left out, no broken object is in it and no dependency is missing; put back, the affected
      objects are there as they were. */
  lemma RejectionFallsBack(cfg: Config, st: State, r: Round, broken: seq<ObjectHash>, resolve: Resolver, g: Graph,
                           lastGraph: Graph)
    requires cfg.fallback && WellKeyed(r.cache) && Resolves(resolve, r.cache) && GraphOf(g, r.cache, resolve)
    requires lastGraph.Valid()
    requires var snapshot := if cfg.useLastValid then st.lastValidSnapshot else None;
             && (snapshot.Some? ==> WellKeyed(snapshot.value) && GraphOf(lastGraph, snapshot.value, resolve))
             && r.generate(r.cache, snapshot, broken) == Some(FallbackOf(g, r.cache, broken, lastGraph, snapshot))
    requires broken != [] && r.diagnosticsOk && r.main.ready != [] && Rejects(cfg, r.main, broken)
    requires r.fallbackPush.ready != [] && Takes(cfg, r.fallbackPush)
    ensures var (end, outcome) := Process(cfg, st, r);
            var snapshot := if cfg.useLastValid then st.lastValidSnapshot else None;
            var fc := FallbackOf(g, r.cache, broken, lastGraph, snapshot);
            && outcome == SyncFailed(true) && end.lastValid == Some(cfg.build(fc)) && Accepted(end.log, cfg.build(fc))
            && end.lastValidSnapshot == (if cfg.useLastValid then Some(fc) else st.lastValidSnapshot)
            && (snapshot.None? ==> DependencyClosed(Objects(fc), r.cache, resolve))
            && (snapshot.None? ==> forall o :: o in Objects(fc) ==> HashOf(o) !in broken)
            && (snapshot.Some? ==>
                  forall o :: o in Objects(snapshot.value) && HashOf(o) in Affected(g, broken) ==> o in Objects(fc))
  {
    var snapshot := if cfg.useLastValid then st.lastValidSnapshot else None;
    var fc := FallbackOf(g, r.cache, broken, lastGraph, snapshot);
    FallbackContents(r.cache, broken, resolve, g, lastGraph, snapshot);
    hide FallbackOf, WellKeyed, GraphOf, Resolves, Affected, Objects, DependencyClosed;
    hide Rejects, Takes;
    RoundFellBack(cfg, st, r, broken, fc);
    var end := Process(cfg, st, r).0;
    assert end.log[|st.log| + 1] == Push(cfg.build(fc), Asked(cfg, r.fallbackPush), true);
  }

  lemma FallbackContents(cache: Contents, broken: seq<ObjectHash>, resolve: Resolver, g: Graph, lastGraph: Graph,
                         snapshot: Option<Contents>)
    requires WellKeyed(cache) && Resolves(resolve, cache) && GraphOf(g, cache, resolve) && lastGraph.Valid()
    requires snapshot.Some? ==> WellKeyed(snapshot.value) && GraphOf(lastGraph, snapshot.value, resolve)
    ensures var fc := FallbackOf(g, cache, broken, lastGraph, snapshot);
            && (snapshot.None? ==> DependencyClosed(Objects(fc), cache, resolve))
            && (snapshot.None? ==> forall o :: o in Objects(fc) ==> HashOf(o) !in broken)
            && (snapshot.Some? ==>
                  forall o :: o in Objects(snapshot.value) && HashOf(o) in Affected(g, broken) ==> o in Objects(fc))
  {
    GraphValid(g, cache, resolve);
    hide Affected, Exclude, Backfilled, GraphOf, WellKeyed, Objects, HashOf, Resolves, DependencyClosed;
    match snapshot
    case None =>
      ExclusionClosed(g, cache, resolve, broken);
      ExcludeObjects(cache, Affected(g, broken));
      forall o | o in Objects(Exclude(cache, Affected(g, broken))) ensures HashOf(o) !in broken {
        if HashOf(o) in broken {
          ExclusionDropsBroken(g, cache, resolve, broken, o);
        }
      }
    case Some(last) =>
      forall o | o in Objects(last) && HashOf(o) in Affected(g, broken)
        ensures o in Objects(Backfilled(g, cache, broken, lastGraph, last))
      {
        AffectedComesBack(g, cache, broken, lastGraph, last, resolve, o);
      }
  }

  // ---------------------------------------------------------------- other settings

  /** A report is made exactly when reports are on and the sorted hashes changed. */
  lemma ReportedExactly(cfg: Config, st: State, r: Round)
    requires Process(cfg, st, r).1.Synced?
    ensures Process(cfg, st, r).1.reported <==> cfg.reports && Process(cfg, st, r).0.shas != st.shas
    ensures r.main.ready == [] ==> !Process(cfg, st, r).1.reported
  {
  }

  /** Without both settings no snapshot is ever remembered. */
  lemma NoSnapshotUnlessEnabled(cfg: Config, st: State, r: Round)
    requires !(cfg.fallback && cfg.useLastValid) && WellKeyed(r.cache) && st.lastValidSnapshot.None?
    ensures Next(cfg, st, r).0.lastValidSnapshot.None?
  {
    hide Stream, WellKeyed;
  }

  /** With no gateway ready the round reports success and decouples the snapshot from the configuration. */
  lemma NoGatewayDecouples(cfg: Config, r: Round)
    requires cfg.fallback && cfg.useLastValid && WellKeyed(r.cache) && r.main.ready == []
    requires cfg.digest(Stream(r.cache)) != ""
    ensures var (st, outcome) := Next(cfg, INITIAL, r);
            outcome.Synced? && st.lastValidSnapshot == Some(r.cache) && !Coupled(cfg, st)
  {
    hide Stream, WellKeyed;
  }

  // ---------------------------------------------------------------- the client

  class KongClient {
    const cfg: Config
    const cache: CacheStores
    var lastProcessedSnapshotHash: string
    var lastValidCacheSnapshot: Option<Contents>
    var shas: seq<string>
    /** kept by the config fetcher */
    var lastValidConfig: Option<KongState>
    /** kept by the config builder */
    var builderCache: Contents
    ghost var log: seq<Push>
    ghost var fetches: set<KongState>

    constructor (cfg: Config, cache: CacheStores)
      ensures this.cfg == cfg && this.cache == cache && Abstract() == INITIAL
    {
      this.cfg, this.cache := cfg, cache;
      lastProcessedSnapshotHash, lastValidCacheSnapshot, shas, lastValidConfig := "", None, [], None;
      log, fetches, builderCache := [], {}, map[];
    }

    ghost function Abstract(): State
      reads this
    {
      State(lastProcessedSnapshotHash, lastValidCacheSnapshot, shas, lastValidConfig, log, fetches)
    }

    /** sendOutToGatewayClients */
    method SendOutToGatewayClients(s: KongState, g: Gateways)
      returns (previousShas: seq<string>, error: Option<PushError>)
      modifies this`shas, this`lastValidConfig, this`log
      ensures var sent := SendOut(cfg, old(Abstract()), s, g);
              Abstract() == sent.st && previousShas == sent.previousShas && error == sent.error
    {
      if |g.ready| == 0 {
        return shas, None;
      }
      var chosen := Chosen(cfg, g.ready);
      var newShas, err := SendToEach(g, chosen);
      if err.Some? {
        log := log + [Push(s, chosen, false)];
        return [], err;
      }
      previousShas, error := shas, None;
      shas := Text.Sort(newShas);
      lastValidConfig := Some(s);
      log := log + [Push(s, chosen, true)];
    }

    /** maybePreserveTheLastValidConfigCache */
    method MaybePreserveTheLastValidConfigCache(lastValidCache: Contents)
      modifies this`lastValidCacheSnapshot
      ensures Abstract() == Preserve(cfg, old(Abstract()), lastValidCache)
    {
      if cfg.fallback && cfg.useLastValid {
        lastValidCacheSnapshot := Some(lastValidCache);
      }
    }

    /** tryRecoveringWithFallbackConfiguration */
    method TryRecoveringWithFallbackConfiguration(r: Round, broken: seq<ObjectHash>) returns (ok: bool)
      modifies this`shas, this`lastValidConfig, this`lastValidCacheSnapshot, this`builderCache, this`log
      ensures (Abstract(), ok) == TryFallback(cfg, old(Abstract()), r, broken)
    {
      var fallbackCache := r.generate(r.cache, if cfg.useLastValid then lastValidCacheSnapshot else None, broken);
      if fallbackCache.None? || !r.diagnosticsOk {
        return false;
      }
      builderCache := fallbackCache.value;
      var _, error := SendOutToGatewayClients(cfg.build(builderCache), r.fallbackPush);
      if error.Some? {
        return false;
      }
      MaybePreserveTheLastValidConfigCache(fallbackCache.value);
      ok := true;
    }

    /** maybeTryRecoveringFromGatewaysSyncError */
    method MaybeTryRecoveringFromGatewaysSyncError(r: Round, gatewaysSyncErr: PushError) returns (ok: bool)
      modifies this`shas, this`lastValidConfig, this`lastValidCacheSnapshot, this`builderCache, this`log
      ensures (Abstract(), ok) == Recover(cfg, old(Abstract()), r, gatewaysSyncErr)
    {
      hide SendOut;
      if gatewaysSyncErr.OtherError? {
        return true;
      }
      if cfg.fallback && |gatewaysSyncErr.broken| > 0 {
        var recovered := TryRecoveringWithFallbackConfiguration(r, gatewaysSyncErr.broken);
        if recovered {
          return true;
        }
      }
      ok := true;
      if lastValidConfig.Some? {
        var _, error := SendOutToGatewayClients(lastValidConfig.value, r.recoveryPush);
        ok := error.None?;
      }
    }

    /** Update */
    method Update(r: Round) returns (outcome: Outcome)
      requires cache.Valid() && r.cache == cache.stores && forall s :: cfg.digest(s) != ""
      modifies this
      ensures (Abstract(), outcome) == Next(cfg, old(Abstract()), r)
    {
      hide SendOut, Stream, WellKeyed, Recover;
      if cfg.dbless && lastValidConfig.None? && r.fetched.Some? {
        lastValidConfig := r.fetched;
        fetches := fetches + {r.fetched.value};
      }
      builderCache := cache.stores;
      if cfg.fallback {
        var snapshot, newHash := cache.TakeSnapshotIfChanged(lastProcessedSnapshotHash, cfg.digest);
        if newHash == "" {
          return Skipped;
        }
        lastProcessedSnapshotHash := newHash;
        builderCache := snapshot.stores;
      }
      var previousShas, gatewaysSyncErr := SendOutToGatewayClients(cfg.build(builderCache), r.main);
      if gatewaysSyncErr.Some? {
        var ok := MaybeTryRecoveringFromGatewaysSyncError(r, gatewaysSyncErr.value);
        return SyncFailed(ok);
      }
      MaybePreserveTheLastValidConfigCache(r.cache);
      outcome := Synced(cfg.reports && previousShas != shas);
    }
  }

  /** Push to each chosen gateway in turn, collecting hashes and the first rejection. */
  method SendToEach(g: Gateways, chosen: seq<string>) returns (shas: seq<string>, error: Option<PushError>)
    ensures error.None? <==> AllAccept(g, chosen)
    ensures error.None? ==> shas == Shas(g, chosen)
    ensures error.Some? ==> error.value == JoinedError(g, chosen)
  {
    shas, error := [], None;
    var i := |chosen|;
    while i > 0
      invariant 0 <= i <= |chosen|
      invariant error.None? <==> AllAccept(g, chosen[i..])
      invariant error.None? ==> shas == Shas(g, chosen[i..])
      invariant error.GetOr(OtherError) == JoinedError(g, chosen[i..])
    {
      i := i - 1;
      assert chosen[i..] == [chosen[i]] + chosen[i + 1..];
      assert chosen[i..][1..] == chosen[i + 1..];
      match g.answer(chosen[i])
      case Accept(sha) => shas := [sha] + shas;
      case Refuse(e) => error := if e.Rejection? then Some(e) else if error.Some? then error else Some(OtherError);
    }
  }
}
