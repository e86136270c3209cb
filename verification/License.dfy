/**
  * The panel's licence state: signed answers of the licence server, the cached last one, and
  * the degradation while the server cannot be reached. Time is in milliseconds; the signature
  * check with parsing, and the hash of a key, are parameters.
  */
module License {
  import opened Basics

  datatype PayloadStatus = Active | Suspended | Expired | Invalid

  datatype Limits = Limits(maxNodes: nat, maxVms: nat)

  datatype Payload = Payload(
    status: PayloadStatus,
    tier: string,
    limits: Limits,
    features: seq<string>,
    issuedAt: int,
    expiresAt: Option<string>,
    gracePeriodDays: int,
    nonce: string)

  datatype Status = InForce | Grace | Unlicensed | Unconfigured

  datatype State = State(
    status: Status,
    tier: Option<string>,
    limits: Option<Limits>,
    features: seq<string>,
    graceRemainingDays: Option<int>,
    expiresAt: Option<string>,
    lastValidatedAt: Option<int>)

  /** Text with its signature, as the server sends and the cache keeps it. */
  datatype Envelope = Envelope(raw: string, signature: string)

  /** The signature check with parsing: None where it throws. */
  type Verify = Envelope -> Option<Payload>

  const DAY := 86400000

  function EmptyState(status: Status): State {
    State(status, None, None, if status == Unconfigured then ["*"] else [], None, None, None)
  }

  function StateFromPayload(payload: Payload, grace: bool): State {
    if payload.status != Active then EmptyState(Unlicensed)
    else State(if grace then Grace else InForce, Some(payload.tier), Some(payload.limits), payload.features, None,
      payload.expiresAt, Some(payload.issuedAt))
  }

  function CeilDays(ms: nat): nat { (ms + DAY - 1) / DAY }

  function GraceEnd(payload: Payload): int { payload.issuedAt + payload.gracePeriodDays * DAY }

  function StateFromCache(verify: Verify, cached: Option<Envelope>, now: int): State {
    if cached.None? then EmptyState(Unlicensed)
    else
      var payload := verify(cached.value);
      if payload.None? then EmptyState(Unlicensed)
      else
        var remainingMs := GraceEnd(payload.value) - now;
        if payload.value.status == Active && remainingMs > 0 then
          StateFromPayload(payload.value, true).(graceRemainingDays := Some(CeilDays(remainingMs)))
        else EmptyState(Unlicensed)
  }

  /** One attempt to reach the server: its answer if one came, the nonce sent, whether the
    * cache row could be written. */
  datatype Attempt = Attempt(answer: Option<Envelope>, nonce: string, stored: bool)

  /** The payload the refresh goes by, None where it falls back to the cache. */
  function Accepted(verify: Verify, attempt: Attempt): Option<Payload> {
    if attempt.answer.None? then None
    else
      var payload := verify(attempt.answer.value);
      if payload.Some? && payload.value.nonce == attempt.nonce && attempt.stored then payload else None
  }

  type Cache = map<string, Envelope>

  function Cached(cache: Cache, key: string): Option<Envelope> {
    if key in cache then Some(cache[key]) else None
  }

  /** Cache and state after a configured refresh. */
  function Refreshed(verify: Verify, cache: Cache, key: string, attempt: Attempt, now: int): (Cache, State) {
    var payload := Accepted(verify, attempt);
    if payload.Some? then (cache[key := attempt.answer.value], StateFromPayload(payload.value, false))
    else (cache, StateFromCache(verify, Cached(cache, key), now))
  }

  class LicenseService {
    const verify: Verify
    const hash: string -> string
    const apiConfigured: bool
    /** The key in the environment; empty where there is none. */
    var licenseKey: string
    var cache: Cache
    var state: State

    constructor (verify: Verify, hash: string -> string, apiConfigured: bool, licenseKey: string)
      ensures this.verify == verify && this.hash == hash && this.apiConfigured == apiConfigured
      ensures this.licenseKey == licenseKey && cache == map[] && state == EmptyState(Unconfigured)
    {
      this.verify, this.hash, this.apiConfigured, this.licenseKey := verify, hash, apiConfigured, licenseKey;
      cache, state := map[], EmptyState(Unconfigured);
    }

    /** The environment's key, else the stored one of an active installation; without a key or a
      * server nothing is restricted and nothing asked. */
    method Refresh(phaseActive: bool, storedKey: string, attempt: Attempt, now: int) returns (r: State)
      modifies this
      ensures r == state
      ensures licenseKey == if old(licenseKey) == "" && phaseActive then storedKey else old(licenseKey)
      ensures apiConfigured && licenseKey != "" ==>
        (cache, state) == Refreshed(verify, old(cache), hash(licenseKey), attempt, now)
      ensures !apiConfigured || licenseKey == "" ==>
        cache == old(cache) && state == State(Unconfigured, None, None, ["*"], None, None, None)
    {
      if licenseKey == "" && phaseActive && storedKey != "" {
        licenseKey := storedKey;
      }
      if !apiConfigured || licenseKey == "" {
        state := EmptyState(Unconfigured);
        return state;
      }
      var accepted := false;
      if attempt.answer.Some? {
        var payload := verify(attempt.answer.value);
        if payload.Some? && payload.value.nonce == attempt.nonce && attempt.stored {
          cache := cache[hash(licenseKey) := attempt.answer.value];
          state := StateFromPayload(payload.value, false);
          accepted := true;
        }
      }
      if !accepted {
        state := FromCache(now);
      }
      return state;
    }

    method FromCache(now: int) returns (r: State)
      ensures r == StateFromCache(verify, Cached(cache, hash(licenseKey)), now)
    {
      if hash(licenseKey) !in cache {
        return EmptyState(Unlicensed);
      }
      var payload := verify(cache[hash(licenseKey)]);
      if payload.None? {
        return EmptyState(Unlicensed);
      }
      var remainingMs := GraceEnd(payload.value) - now;
      if payload.value.status == Active && remainingMs > 0 {
        r := StateFromPayload(payload.value, true);
        return r.(graceRemainingDays := Some(CeilDays(remainingMs)));
      }
      return EmptyState(Unlicensed);
    }
  }

  // ---------------------------------------------------------------------------
  // One refresh

  /** The cached answer, as far as it verifies and is active. */
  function Licence(verify: Verify, cached: Option<Envelope>): Option<Payload> {
    if cached.Some? && verify(cached.value).Some? && verify(cached.value).value.status == Active
    then verify(cached.value) else None
  }

  /** An answer is gone by exactly when it came, verifies, carries the nonce that was sent and
    * could be stored. */
  lemma AcceptedIff(verify: Verify, attempt: Attempt)
    ensures Accepted(verify, attempt).Some? <==>
      && attempt.answer.Some? && attempt.stored
      && verify(attempt.answer.value).Some? && verify(attempt.answer.value).value.nonce == attempt.nonce
    ensures Accepted(verify, attempt).Some? ==> Accepted(verify, attempt) == verify(attempt.answer.value)
  {
  }

  /** Which status a configured refresh ends in: in force exactly for an active signed answer to
    * the nonce sent that could be stored; in grace exactly if no answer can be gone by while the
    * cached one verifies, is active and its period lasts. */
  lemma RefreshStatusIff(verify: Verify, cache: Cache, key: string, attempt: Attempt, now: int)
    ensures var status := Refreshed(verify, cache, key, attempt, now).1.status;
      && (status == InForce <==>
            && attempt.answer.Some? && attempt.stored && verify(attempt.answer.value).Some?
            && verify(attempt.answer.value).value.nonce == attempt.nonce
            && verify(attempt.answer.value).value.status == Active)
      && (status == Grace <==>
            && (attempt.answer.Some? && attempt.stored && verify(attempt.answer.value).Some? ==>
                  verify(attempt.answer.value).value.nonce != attempt.nonce)
            && key in cache && verify(cache[key]).Some? && verify(cache[key]).value.status == Active
            && now < verify(cache[key]).value.issuedAt + verify(cache[key]).value.gracePeriodDays * 86400000)
      && status in {InForce, Grace, Unlicensed}
  {
    AcceptedIff(verify, attempt);
    LicenceEnds(verify, Cached(cache, key), now);
  }

  lemma LicenceEnds(verify: Verify, cached: Option<Envelope>, now: int)
    ensures InGrace(verify, cached, now) <==> StateFromCache(verify, cached, now).status == Grace
  {
  }

  /** The cache after a configured refresh: an answer gone by replaces the row of this key; an
    * attempt that misses the answer, the signature, the nonce or the storing leaves the cache as
    * it was, and the state is what it gives. */
  lemma RefreshCache(verify: Verify, cache: Cache, key: string, attempt: Attempt, now: int)
    ensures var (cache', state) := Refreshed(verify, cache, key, attempt, now);
      if attempt.answer.Some? && attempt.stored && verify(attempt.answer.value).Some?
         && verify(attempt.answer.value).value.nonce == attempt.nonce
      then
        && key in cache' && cache'[key] == attempt.answer.value
        && forall k :: k != key ==> Cached(cache', k) == Cached(cache, k)
      else cache' == cache && state == StateFromCache(verify, Cached(cache, key), now)
  {
    AcceptedIff(verify, attempt);
  }

  lemma CeilBounds(ms: nat)
    ensures (CeilDays(ms) - 1) * DAY < ms <= CeilDays(ms) * DAY
  {
  }

  lemma CeilAtMost(ms: nat, days: int)
    ensures CeilDays(ms) <= days <==> ms <= days * DAY
  {
    CeilBounds(ms);
  }

  // ---------------------------------------------------------------------------
  // Without the server

  ghost predicate InGrace(verify: Verify, cached: Option<Envelope>, now: int) {
    var licence := Licence(verify, cached);
    licence.Some? && now < licence.value.issuedAt + licence.value.gracePeriodDays * 86400000
  }

  /** Everything the answer promises is in the state, and nothing more. */
  ghost predicate Grants(state: State, payload: Payload) {
    && state.tier == Some(payload.tier) && state.limits == Some(payload.limits) && state.features == payload.features
    && state.expiresAt == payload.expiresAt && state.lastValidatedAt == Some(payload.issuedAt)
  }

  ghost predicate GrantsNothing(state: State) {
    && state.status == Unlicensed && state.tier == None && state.limits == None && state.features == []
    && state.graceRemainingDays == None && state.expiresAt == None && state.lastValidatedAt == None
  }

  /** The period ends within the last of these days. */
  ghost predicate DaysLeft(payload: Payload, now: int, days: int) {
    now + (days - 1) * 86400000 < payload.issuedAt + payload.gracePeriodDays * 86400000 <= now + days * 86400000
  }

  /** What the cache gives at one moment: in grace, the licence with the days left, from one to
    * the full period, which only an answer from the future exceeds; else nothing. */
  lemma CacheGives(verify: Verify, cached: Option<Envelope>, now: int)
    ensures var state := StateFromCache(verify, cached, now);
      if InGrace(verify, cached, now) then
        var payload := Licence(verify, cached).value;
        && state.status == Grace && Grants(state, payload)
        && state.graceRemainingDays.Some? && state.graceRemainingDays.value >= 1
        && DaysLeft(payload, now, state.graceRemainingDays.value)
        && (state.graceRemainingDays.value <= payload.gracePeriodDays <==> payload.issuedAt <= now)
      else GrantsNothing(state)
  {
    if InGrace(verify, cached, now) {
      var payload := Licence(verify, cached).value;
      CeilAtMost(GraceEnd(payload) - now, payload.gracePeriodDays);
      CeilBounds(GraceEnd(payload) - now);
    }
  }

  lemma CeilMonotonic(ms: nat, ms': nat)
    requires ms <= ms'
    ensures CeilDays(ms) <= CeilDays(ms')
  {
    CeilBounds(ms');
    CeilAtMost(ms, CeilDays(ms'));
  }

  /** Time only takes away. */
  ghost predicate Degrades(earlier: State, later: State) {
    || GrantsNothing(later)
    || (earlier.status == Grace == later.status
        && earlier.(graceRemainingDays := None) == later.(graceRemainingDays := None)
        && earlier.graceRemainingDays.Some? && later.graceRemainingDays.Some?
        && later.graceRemainingDays.value <= earlier.graceRemainingDays.value)
  }

  lemma CacheDegrades(verify: Verify, cached: Option<Envelope>, now: int, later: int)
    requires now <= later
    ensures Degrades(StateFromCache(verify, cached, now), StateFromCache(verify, cached, later))
  {
    if InGrace(verify, cached, later) {
      var payload := Licence(verify, cached).value;
      CeilMonotonic(GraceEnd(payload) - later, GraceEnd(payload) - now);
    }
  }

  datatype Refresh = Refresh(attempt: Attempt, now: int)

  /** The states after each of a series of refreshes. */
  function States(verify: Verify, cache: Cache, key: string, refreshes: seq<Refresh>): seq<State>
    decreases |refreshes|
  {
    if refreshes == [] then []
    else
      var (cache', state) := Refreshed(verify, cache, key, refreshes[0].attempt, refreshes[0].now);
      [state] + States(verify, cache', key, refreshes[1..])
  }

  lemma {:induction false} StatesAt(verify: Verify, cache: Cache, key: string, refreshes: seq<Refresh>, i: nat)
      returns (before: Cache)
    requires i < |refreshes|
    ensures i < |States(verify, cache, key, refreshes)|
    ensures States(verify, cache, key, refreshes)[i]
         == Refreshed(verify, before, key, refreshes[i].attempt, refreshes[i].now).1
    decreases |refreshes|
  {
    before := cache;
    if i > 0 {
      var cache' := Refreshed(verify, cache, key, refreshes[0].attempt, refreshes[0].now).0;
      before := StatesAt(verify, cache', key, refreshes[1..], i - 1);
    }
  }

  /** While no nonce is sent twice, no answer puts the licence in force twice: a replayed one
    * never does. */
  lemma NoReplay(verify: Verify, cache: Cache, key: string, refreshes: seq<Refresh>, i: nat, j: nat)
    requires i < j < |refreshes| && refreshes[i].attempt.nonce != refreshes[j].attempt.nonce
    ensures var states := States(verify, cache, key, refreshes);
      && j < |states|
      && (states[i].status == InForce && states[j].status == InForce ==>
            refreshes[i].attempt.answer != refreshes[j].attempt.answer)
  {
    var earlier := StatesAt(verify, cache, key, refreshes, i);
    var later := StatesAt(verify, cache, key, refreshes, j);
    RefreshStatusIff(verify, earlier, key, refreshes[i].attempt, refreshes[i].now);
    RefreshStatusIff(verify, later, key, refreshes[j].attempt, refreshes[j].now);
  }

  /** The clock does not run backwards and no answer is accepted. */
  ghost predicate Unreachable(verify: Verify, refreshes: seq<Refresh>) {
    && (forall i :: 0 <= i < |refreshes| ==> Accepted(verify, refreshes[i].attempt).None?)
    && (forall i, j :: 0 <= i < j < |refreshes| ==> refreshes[i].now <= refreshes[j].now)
  }

  lemma {:induction false} UnreachableStates(verify: Verify, cache: Cache, key: string, refreshes: seq<Refresh>)
    requires Unreachable(verify, refreshes)
    ensures |States(verify, cache, key, refreshes)| == |refreshes|
    ensures forall i :: 0 <= i < |refreshes| ==>
      States(verify, cache, key, refreshes)[i] == StateFromCache(verify, Cached(cache, key), refreshes[i].now)
    decreases |refreshes|
  {
    if refreshes != [] {
      UnreachableStates(verify, cache, key, refreshes[1..]);
      assert forall i :: 0 < i < |refreshes| ==> refreshes[1..][i - 1] == refreshes[i];
    }
  }

  /** After an accepted answer, over any run of refreshes that fail: each is in grace exactly
    * while the answer was active and its period lasts, and from one to the next the state only
    * degrades. */
  lemma GracefulDegradation(verify: Verify, cache: Cache, key: string, answered: Refresh, refreshes: seq<Refresh>,
      i: nat, j: nat)
    requires Accepted(verify, answered.attempt).Some? && Unreachable(verify, refreshes) && i <= j < |refreshes|
    ensures var payload := Accepted(verify, answered.attempt).value;
      var states := States(verify, cache, key, [answered] + refreshes);
      && |states| == |refreshes| + 1
      && (payload.status == Active ==>
            states[0].status == InForce && Grants(states[0], payload) && states[0].graceRemainingDays == None)
      && (payload.status != Active ==> GrantsNothing(states[0]))
      && (states[i + 1].status == Grace <==> payload.status == Active && refreshes[i].now < GraceEnd(payload))
      && (if states[i + 1].status == Grace then Grants(states[i + 1], payload) else GrantsNothing(states[i + 1]))
      && Degrades(states[i + 1], states[j + 1])
  {
    var cache' := cache[key := answered.attempt.answer.value];
    assert ([answered] + refreshes)[1..] == refreshes;
    UnreachableStates(verify, cache', key, refreshes);
    var states := States(verify, cache', key, refreshes);
    assert States(verify, cache, key, [answered] + refreshes)
        == [StateFromPayload(Accepted(verify, answered.attempt).value, false)] + states;
    CacheGives(verify, Cached(cache', key), refreshes[i].now);
    CacheDegrades(verify, Cached(cache', key), refreshes[i].now, refreshes[j].now);
  }

  // ---------------------------------------------------------------------------
  // Manipulated caches

  datatype Event = Refreshing(refresh: Refresh) | Tampering(cache: Cache)

  datatype Panel = Panel(cache: Cache, state: State)

  function Next(verify: Verify, key: string, s: Panel, event: Event): Panel {
    match event
    case Refreshing(r) =>
      var (cache, state) := Refreshed(verify, s.cache, key, r.attempt, r.now);
      Panel(cache, state)
    case Tampering(cache) => s.(cache := cache)
  }

  function Run(verify: Verify, key: string, s: Panel, events: seq<Event>): Panel
    decreases |events|
  {
    if events == [] then s else Run(verify, key, Next(verify, key, s, events[0]), events[1..])
  }

  /** What is granted is what some signed, active answer grants. */
  ghost predicate Covered(verify: Verify, state: State) {
    state.status in {InForce, Grace} ==> exists e: Envelope ::
      verify(e).Some? && verify(e).value.status == Active && Grants(state, verify(e).value)
  }

  lemma StepCovered(verify: Verify, key: string, s: Panel, event: Event)
    requires Covered(verify, s.state)
    ensures Covered(verify, Next(verify, key, s, event).state)
  {
    if event.Refreshing? {
      var r := event.refresh;
      var payload := Accepted(verify, r.attempt);
      if payload.Some? {
        assert verify(r.attempt.answer.value) == payload;
      } else {
        CacheGives(verify, Cached(s.cache, key), r.now);
        assert InGrace(verify, Cached(s.cache, key), r.now) ==> verify(s.cache[key]).Some?;
      }
    }
  }

  /** Writing anything into the cache between refreshes grants nothing that was not signed. */
  lemma {:induction false} AccessIsSigned(verify: Verify, key: string, s: Panel, events: seq<Event>)
    requires Covered(verify, s.state)
    ensures Covered(verify, Run(verify, key, s, events).state)
    decreases |events|
  {
    if events != [] {
      StepCovered(verify, key, s, events[0]);
      AccessIsSigned(verify, key, Next(verify, key, s, events[0]), events[1..]);
    }
  }
}
